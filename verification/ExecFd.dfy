/** Saving and restoring the descriptors around execve, as the source does it
    (km/km_exec_fd_save_recover.c): text is appended piece by piece, and parse pointers move over it. */
module ExecFd {
  import opened HexDigits
  import opened Sequences
  import opened Wrappers
  import opened TextFormat
  import opened ExecState

  /** A slot of the descriptor table at exec time; a slot is skipped when it is not in use, closed on
      exec, or unknown to the host. */
  datatype Slot = Skipped | StatFailed | Open(entry: Entry)

  function Saved(slots: seq<Slot>): seq<Entry> {
    if slots == [] then []
    else
      var init, last := Saved(slots[..|slots| - 1]), slots[|slots| - 1];
      if last.Open? then init + [last.entry] else init
  }

  predicate SlotsOk(slots: seq<Slot>) {
    forall k :: 0 <= k < |slots| && slots[k].Open? ==> Ok(slots[k].entry)
  }

  lemma {:induction false} SavedOk(slots: seq<Slot>)
    requires SlotsOk(slots)
    ensures AllOk(Saved(slots))
  {
    if slots != [] {
      SavedOk(slots[..|slots| - 1]);
    }
  }

  /** Appending an entry to the text. */
  lemma {:induction false} TextAppend(xs: seq<Entry>, e: Entry)
    requires AllOk(xs) && Ok(e)
    ensures AllOk(xs + [e]) && Text(xs + [e]) == (if xs == [] then "" else Text(xs) + ",") + EntryText(e)
  {
    hide EntryText, Ok;
    var ys := xs + [e];
    if xs != [] {
      TextAppend(xs[1..], e);
      assert ys[1..] == xs[1..] + [e];
      if |xs| > 1 {
        calc {
          Text(ys);
          EntryText(xs[0]) + "," + (Text(xs[1..]) + "," + EntryText(e));
          (EntryText(xs[0]) + "," + Text(xs[1..])) + "," + EntryText(e);
          Text(xs) + "," + EntryText(e);
        }
      } else {
        assert xs[1..] == [];
      }
    }
  }

  // km_bin2hex
  method Bin2hex(bin: seq<int>) returns (hex: string)
    requires BytesOk(bin)
    ensures hex == Bin2Hex(bin)
  {
    hex := "";
    var i := 0;
    assert bin[0..] == bin;
    while i < |bin|
      invariant i <= |bin| && hex + Bin2Hex(bin[i..]) == Bin2Hex(bin)
    {
      assert bin[i..][1..] == bin[i + 1..];
      hex := hex + [DigitChar(bin[i] / 16), DigitChar(bin[i] % 16)];
      i := i + 1;
    }
  }

  // km_hex2bin
  method Hex2bin(s: string, at: nat) returns (bin: seq<int>)
    ensures bin == Hex2Bin(s, at)
  {
    bin := [];
    var i := at;
    while i < |s|
      invariant bin + Hex2Bin(s, i) == Hex2Bin(s, at)
    {
      var nh, nl := DigitOf(CharAt(s, i)), DigitOf(CharAt(s, i + 1));
      if nh < 0 || nl < 0 {
        return;
      }
      bin := bin + [16 * nh + nl];
      i := i + 2;
    }
  }

  // the event branch of km_exec_save_fd: the brace that closes the entry comes with the last event
  method PrintEvents(fd: int, flags: int, events: seq<Event>) returns (text: string)
    requires Ok(EventEntry(fd, flags, events))
    ensures text == EntryText(EventEntry(fd, flags, events))
  {
    hide EventText, EpollText, Printf;
    ghost var all := EntryText(EventEntry(fd, flags, events));
    TagText(4);
    text := "{" + Printf(TAG, [4]) + EpollText(fd, flags);
    var i := 0;
    assert events[0..] == events;
    while i < |events|
      invariant i <= |events| && text + (EventsText(events[i..]) + (if i < |events| then "}" else "")) == all
    {
      assert events[i..][1..] == events[i + 1..];
      var tmp := text + EventText(events[i]) + (if i == |events| - 1 then "}" else "");
      text := tmp;
      i := i + 1;
    }
  }

  // km_exec_save_fd
  method SaveFd(varname: string, slots: seq<Slot>) returns (text: Option<string>)
    requires SlotsOk(slots)
    ensures text == None <==> StatFailed in slots
    ensures text.Some? ==> AllOk(Saved(slots)) && text.value == varname + "=" + Text(Saved(slots))
  {
    hide Ok, EntryText, Text, Saved;
    NoText();
    SavedNone();
    var env := "";
    var i := 0;
    while i < |slots|
      invariant i <= |slots| && StatFailed !in slots[..i] && AllOk(Saved(slots[..i])) && env == Text(Saved(slots[..i]))
    {
      SavedStep(slots, i);
      if slots[i].StatFailed? {
        return None;
      }
      if slots[i].Open? {
        var more := PrintEntry(slots[i].entry);
        TextAppend(Saved(slots[..i]), slots[i].entry);
        TextEmpty(Saved(slots[..i]));
        env := (if env == "" then "" else env + ",") + more;
      }
      i := i + 1;
    }
    assert slots[..i] == slots;
    text := Some(varname + "=" + env);
  }

  method PrintEntry(e: Entry) returns (text: string)
    requires Ok(e)
    ensures text == EntryText(e)
  {
    hide Ok, EntryText;
    if e.EventEntry? {
      text := PrintEvents(e.fd, e.flags, e.events);
    } else {
      text := EntryText(e);
    }
  }

  lemma SavedNone()
    ensures Saved([]) == []
  {
  }

  lemma SavedStep(slots: seq<Slot>, i: nat)
    requires i < |slots|
    ensures Saved(slots[..i + 1]) == if slots[i].Open? then Saved(slots[..i]) + [slots[i].entry] else Saved(slots[..i])
  {
    assert slots[..i + 1][..i] == slots[..i];
  }

  lemma TextEmpty(xs: seq<Entry>)
    requires AllOk(xs)
    ensures Text(xs) == "" <==> xs == []
  {
    if xs != [] {
      TextHead(xs);
    }
  }

  /** The events read so far, before the rest. */
  function Before(events: seq<Event>, r: Option<(seq<Event>, nat)>): Option<(seq<Event>, nat)> {
    match r
    case None => None
    case Some((es, end)) => Some((events + es, end))
  }

  function EntriesBefore(table: seq<Entry>, r: Option<seq<Entry>>): Option<seq<Entry>> {
    match r
    case None => None
    case Some(rest) => Some(table + rest)
  }

  lemma NothingBefore(r: Option<(seq<Event>, nat)>, t: Option<seq<Entry>>)
    ensures Before([], r) == r && EntriesBefore([], t) == t
  {
    assert r.Some? ==> [] + r.value.0 == r.value.0;
    assert t.Some? ==> [] + t.value == t.value;
  }

  // the event loop of km_exec_restore_fd
  method RestoreEvents(s: string, at: nat) returns (ok: bool, events: seq<Event>, q: nat)
    requires at <= |s|
    ensures ParseEvents(s, at) == if ok then Some((events, q)) else None
  {
    hide Sscanf;
    q, events := at, [];
    NothingBefore(ParseEvents(s, at), None);
    while CharAt(s, q) == ','
      invariant q <= |s|
      invariant ParseEvents(s, at) == Before(events, ParseEvents(s, q))
      decreases |s| - q
    {
      var vals := if CharAt(s, q + 1) == '{' then Sscanf(s, q + 2, EVENT) else [];
      if |vals| != 3 {
        return false, events, q;
      }
      var k := Strchr(s, q + 1, '}');
      if k == |s| {
        return false, events, q;
      }
      EventsTail(s, q, events);
      events := events + [Event(vals[0], vals[1], vals[2])];
      q := k + 1;
    }
    assert events + [] == events;
    ok := true;
  }

  lemma EventsTail(s: string, q: nat, events: seq<Event>)
    requires q < |s| && s[q] == ',' && CharAt(s, q + 1) == '{' && |Sscanf(s, q + 2, EVENT)| == 3 &&
             Strchr(s, q + 1, '}') < |s|
    ensures var v := Sscanf(s, q + 2, EVENT);
            Before(events, ParseEvents(s, q)) ==
            Before(events + [Event(v[0], v[1], v[2])], ParseEvents(s, Strchr(s, q + 1, '}') + 1))
  {
    hide Sscanf;
    var v := Sscanf(s, q + 2, EVENT);
    var e := Event(v[0], v[1], v[2]);
    match ParseEvents(s, Strchr(s, q + 1, '}') + 1)
    case None =>
    case Some((es, end)) => assert events + ([e] + es) == (events + [e]) + es;
  }

  // km_exec_restore_fd; the entries are those restored, in order, also when it fails later
  method RestoreFd(s: string) returns (ok: bool, table: seq<Entry>)
    ensures Parse(s, 0) == if ok then Some(table) else None
  {
    hide ParseEntry;
    var p := 0;
    table := [];
    NothingBefore(None, Parse(s, 0));
    while p < |s|
      invariant Parse(s, 0) == EntriesBefore(table, Parse(s, p))
      decreases |s| - p
    {
      var found, entry, next := RestoreOne(s, p);
      if !found {
        return false, table;
      }
      var q := Strchr(s, next, '}');
      if q == |s| {
        return false, table + [entry];
      }
      ParseTail(s, p, table);
      table := table + [entry];
      p := q + 1;
      if CharAt(s, p) == ',' {
        p := p + 1;
      }
    }
    assert table + [] == table;
    ok := true;
  }

  lemma ParseTail(s: string, p: nat, table: seq<Entry>)
    requires p < |s| && ParseEntry(s, p).Some? && Strchr(s, ParseEntry(s, p).value.1, '}') < |s|
    ensures var (e, from) := ParseEntry(s, p).value;
            EntriesBefore(table, Parse(s, p)) == EntriesBefore(table + [e], Parse(s, NextEntry(s, from)))
  {
    hide ParseEntry;
    var (e, from) := ParseEntry(s, p).value;
    match Parse(s, NextEntry(s, from))
    case None =>
    case Some(rest) => assert table + ([e] + rest) == (table + [e]) + rest;
  }

  // one turn of its loop
  method RestoreOne(s: string, p: nat) returns (ok: bool, entry: Entry, next: nat)
    requires p < |s|
    ensures ParseEntry(s, p) == if ok then Some((entry, next)) else None
  {
    hide Sscanf, ParseEvents, Hex2Bin;
    ok, entry, next := false, FileEntry(0, 0, 0, 0), p;
    var tags := if s[p] == '{' then Sscanf(s, p + 1, TAG) else [];
    var c := Strchr(s, p, ',');
    if |tags| != 1 || c == |s| {
      return;
    }
    var q := c + 1;
    var tag := tags[0];
    if tag == 0 || tag == 1 {
      var v := Sscanf(s, q, FOUR);
      if |v| == 4 {
        ok, entry := true, if tag == 0 then FileEntry(v[0], v[1], v[2], v[3]) else PipeEntry(v[0], v[1], v[2], v[3]);
      }
    } else if tag == 2 {
      var v := Sscanf(s, q, PAIR);
      if |v| == 3 {
        ok, entry := true, SocketPairEntry(v[0], v[1], v[2]);
      }
    } else if tag == 3 {
      var v := Sscanf(s, q, SOCKET);
      var k := Strchr(s, q, '}');
      if |v| == 5 && k < |s| && k != q {
        var a := FindAddress(s, q, k);
        var addr := Hex2bin(s, a);
        ok, entry := true, SocketEntry(v[0], v[1], v[2], v[3], v[4], addr);
      }
    } else if tag == 4 {
      var v := Sscanf(s, q, EPOLL);
      var k := FindBrace(s, q);
      if |v| == 2 && k < |s| {
        var done, events, end := RestoreEvents(s, if s[k] == '{' then k - 1 else k);
        if done && CharAt(s, end) == '}' {
          ok, entry, next := true, EventEntry(v[0], v[1], events), end;
        }
      }
    }
  }

  // the walk back from the closing brace to the last comma
  method FindAddress(s: string, saveq: nat, k: nat) returns (q: nat)
    requires saveq < k <= |s|
    ensures q == BackToComma(s, saveq, k)
  {
    q := k;
    while s[q - 1] != ','
      invariant saveq < q <= k && BackToComma(s, saveq, q) == BackToComma(s, saveq, k)
      decreases q
    {
      q := q - 1;
      if q == saveq {
        break;
      }
    }
  }
}
