/** The snapshot note that carries the dup groups (km/km_filesys.c, km/km_coredump.h).

    A note is a sequence of 32-bit words: name size, descriptor size, type and the 4-byte name, then
    the number of groups and, for each group, its size and its members.
 */
module DupNotes {
  import opened DupGroups

  const NT_KM_DUP_DATA: int := 0x4b4d4455
  const KM_NT_NAME: int := 0x50534d4b // "KMSP"
  const NAME_SIZE: int := 4
  const HEADER_SIZE: int := 16 // Elf64_Nhdr and the name

  /** The words of the groups, in order. */
  function GroupWords(gs: Groups): seq<int> {
    if gs == [] then [] else GroupWords(gs[..|gs| - 1]) + [|gs[|gs| - 1]|] + gs[|gs| - 1]
  }

  function NoteWords(gs: Groups): seq<int> {
    [NAME_SIZE, NotesLength(gs) - HEADER_SIZE, NT_KM_DUP_DATA, KM_NT_NAME, |gs|] + GroupWords(gs)
  }

  function GroupBytes(gs: Groups): nat {
    if gs == [] then 0 else GroupBytes(gs[..|gs| - 1]) + 4 + 4 * |gs[|gs| - 1]|
  }

  function NotesLength(gs: Groups): nat {
    HEADER_SIZE + 4 + GroupBytes(gs)
  }

  /** The note occupies exactly the announced number of bytes. */
  lemma {:induction false} NoteSize(gs: Groups)
    ensures 4 * |GroupWords(gs)| == GroupBytes(gs) && 4 * |NoteWords(gs)| == NotesLength(gs)
  {
    if gs != [] {
      NoteSize(gs[..|gs| - 1]);
    }
  }

  /** The words of the first groups are a prefix. */
  lemma {:induction false} GroupWordsPrefix(gs: Groups, i: nat)
    requires i <= |gs|
    ensures GroupWords(gs[..i]) <= GroupWords(gs)
    decreases |gs|
  {
    if i == |gs| {
      assert gs[..i] == gs;
    } else {
      var init := gs[..|gs| - 1];
      GroupWordsPrefix(init, i);
      assert init[..i] == gs[..i];
    }
  }

  lemma GroupWordsStep(gs: Groups, i: nat)
    requires i < |gs|
    ensures GroupWords(gs[..i + 1]) == GroupWords(gs[..i]) + [|gs[i]|] + gs[i]
    ensures GroupBytes(gs[..i + 1]) == GroupBytes(gs[..i]) + 4 + 4 * |gs[i]|
  {
    assert gs[..i + 1][..i] == gs[..i];
  }

  /** Where the words of group i stand. */
  lemma GroupAt(gs: Groups, i: nat)
    requires i < |gs|
    ensures var at := |GroupWords(gs[..i])|;
            at + 1 + |gs[i]| == |GroupWords(gs[..i + 1])| <= |GroupWords(gs)| &&
            GroupWords(gs)[at] == |gs[i]| && GroupWords(gs)[at + 1..at + 1 + |gs[i]|] == gs[i]
  {
    GroupWordsStep(gs, i);
    GroupWordsPrefix(gs, i + 1);
    var w, v := GroupWords(gs[..i + 1]), GroupWords(gs[..i]);
    assert w[|v|] == |gs[i]| && w[|v| + 1..] == gs[i];
    assert GroupWords(gs)[|v| + 1..|w|] == w[|v| + 1..];
  }

  // km_fs_dup_notes_length
  method DupNotesLength(gs: Groups) returns (ret: int)
    ensures ret == NotesLength(gs) == 4 * |NoteWords(gs)|
  {
    ret := HEADER_SIZE + 4;
    var i := 0;
    while i < |gs|
      invariant i <= |gs| && ret == HEADER_SIZE + 4 + GroupBytes(gs[..i])
    {
      GroupWordsStep(gs, i);
      ret := ret + 4 + |gs[i]| * 4;
      i := i + 1;
    }
    assert gs[..i] == gs;
    NoteSize(gs);
  }

  // km_fs_core_dup_write; buffer and cursor count words
  method CoreDupWrite(gs: Groups, buf: array<int>) returns (cur: nat)
    requires 4 * buf.Length >= NotesLength(gs)
    modifies buf
    ensures 4 * cur == NotesLength(gs) && buf[..cur] == NoteWords(gs)
    ensures buf[cur..] == old(buf[cur..])
  {
    NoteSize(gs);
    var length := DupNotesLength(gs);
    ghost var head := [NAME_SIZE, length - HEADER_SIZE, NT_KM_DUP_DATA, KM_NT_NAME, |gs|];
    assert NoteWords(gs) == head + GroupWords(gs);
    hide NoteWords, GroupWords, NotesLength;
    WriteHead(buf, length, |gs|);
    cur := 5;
    var i := 0;
    assert gs[..0] == [] && GroupWords([]) == [] by {
      GroupWordsNone();
    }
    while i < |gs|
      invariant i <= |gs| && cur == 5 + |GroupWords(gs[..i])| <= buf.Length
      invariant buf[..cur] == head + GroupWords(gs[..i])
      invariant buf[cur..] == old(buf[cur..])
    {
      GroupWordsStep(gs, i);
      GroupWordsPrefix(gs, i + 1);
      cur := WriteGroup(gs[i], buf, cur);
      i := i + 1;
    }
    assert gs[..i] == gs;
  }

  lemma GroupWordsNone()
    ensures GroupWords([]) == []
  {
  }

  // km_add_note_header, and the number of groups
  method WriteHead(buf: array<int>, length: int, size: int)
    requires buf.Length >= 5
    modifies buf
    ensures buf[..5] == [NAME_SIZE, length - HEADER_SIZE, NT_KM_DUP_DATA, KM_NT_NAME, size] && buf[5..] == old(buf[5..])
  {
    buf[0], buf[1], buf[2], buf[3] := NAME_SIZE, length - HEADER_SIZE, NT_KM_DUP_DATA, KM_NT_NAME;
    buf[4] := size;
  }

  // its inner loop
  method WriteGroup(g: seq<int>, buf: array<int>, at: nat) returns (cur: nat)
    requires at + 1 + |g| <= buf.Length
    modifies buf
    ensures cur == at + 1 + |g| && buf[..cur] == old(buf[..at]) + [|g|] + g && buf[cur..] == old(buf[cur..])
  {
    buf[at] := |g|;
    cur := at + 1;
    var j := 0;
    while j < |g|
      invariant j <= |g| && cur == at + 1 + j
      invariant buf[..cur] == old(buf[..at]) + [|g|] + g[..j] && buf[cur..] == old(buf[cur..])
    {
      buf[cur] := g[j];
      cur := cur + 1;
      j := j + 1;
    }
  }

  lemma BodyAt(words: seq<int>, ptr: nat, body: seq<int>, k: nat, n: nat)
    requires ptr <= |words| && body <= words[ptr..] && k + n <= |body|
    ensures ptr + k + n <= |words| && words[ptr + k..ptr + k + n] == body[k..k + n]
  {
    assert body == words[ptr..][..|body|];
    assert words[ptr + k..ptr + k + n] == words[ptr..][k..k + n];
  }

  /** The words of group i in a note that starts at `ptr`. */
  lemma GroupInNote(words: seq<int>, ptr: nat, gs: Groups, i: nat)
    requires ptr <= |words| && [|gs|] + GroupWords(gs) <= words[ptr..] && i < |gs|
    ensures var p := ptr + 1 + |GroupWords(gs[..i])|;
            p + 1 + |gs[i]| <= |words| && words[p] == |gs[i]| && words[p + 1..p + 1 + |gs[i]|] == gs[i] &&
            p + 1 + |gs[i]| == ptr + 1 + |GroupWords(gs[..i + 1])|
  {
    GroupAt(gs, i);
    hide GroupWords;
    var body, at, n := [|gs|] + GroupWords(gs), |GroupWords(gs[..i])|, |gs[i]|;
    assert body[1 + at] == GroupWords(gs)[at] && body[2 + at..2 + at + n] == GroupWords(gs)[at + 1..at + 1 + n];
    BodyAt(words, ptr, body, 1 + at, 1);
    BodyAt(words, ptr, body, 2 + at, n);
    assert words[ptr + 1 + at] == words[ptr + 1 + at..ptr + 2 + at][0] == body[1 + at..2 + at][0];
  }

  // km_fs_recover_dup_data: reading the descriptor of a written note gives the groups back
  method RecoverDupData(words: seq<int>, ptr: nat, ghost gs: Groups) returns (groups: Groups)
    requires ptr <= |words| && [|gs|] + GroupWords(gs) <= words[ptr..]
    ensures groups == gs
  {
    assert words[ptr..][0] == words[ptr] == |gs|;
    GroupWordsNone();
    hide GroupWords;
    var size := words[ptr];
    var p := ptr + 1;
    groups := [];
    var i := 0;
    assert gs[..0] == [];
    while i < size
      invariant 0 <= i <= |gs| == size && groups == gs[..i] && p == ptr + 1 + |GroupWords(gs[..i])|
    {
      GroupInNote(words, ptr, gs, i);
      var n := words[p];
      groups := groups + [words[p + 1..p + 1 + n]];
      p := p + 1 + n;
      i := i + 1;
    }
  }
}
