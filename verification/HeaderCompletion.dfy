/** Completion of a spooled message with the headers it lacks. */
module HeaderCompletion {
  import opened Text
  import opened DataReader
  import opened LineReader
  import opened Options

  /** Message id and date come from the clock and the host; both are arbitrary here. */
  datatype Generated = Generated(id: string, date: string)

  /** What printf makes of a string that may be missing. */
  function Shown(s: Option<string>): string {
    match s case None => "(null)" case Some(t) => t
  }

  const UNDISCLOSED := "undisclosed-recipients:;"

  datatype Field = MessageId | Date | From | To

  /** The name the server writes. */
  function Name(f: Field): string {
    match f
    case MessageId => "Message-Id:"
    case Date => "Date:"
    case From => "From:"
    case To => "To:"
  }

  /** The prefix the reader looks for, in any case. */
  function Pattern(f: Field): string {
    match f
    case MessageId => "Message-ID:"
    case Date => "Date:"
    case From => "From:"
    case To => "To:"
  }

  predicate Found(s: Spool, f: Field) {
    match f
    case MessageId => s.mid
    case Date => s.date
    case From => s.from
    case To => s.to
  }

  function HeaderLine(f: Field, value: string, nl: string): string {
    Name(f) + " " + value + nl
  }

  /** The lines put in front of the message. A message in which no line has a colon gets an
      empty line behind them. */
  function NewLines(s: Spool, g: Generated, sender: Option<string>): seq<string> {
    NewHeaders(s, g, sender, Shown(s.nl)) + (if s.header then [] else [Shown(s.nl)])
  }

  function NewHeaders(s: Spool, g: Generated, sender: Option<string>, nl: string): seq<string> {
    Unless(s.mid, MessageId, g.id, nl) + Unless(s.date, Date, g.date, nl) +
    Unless(s.from, From, Shown(sender), nl) + Unless(s.to, To, UNDISCLOSED, nl)
  }

  function Unless(present: bool, f: Field, value: string, nl: string): seq<string> {
    if present then [] else [HeaderLine(f, value, nl)]
  }

  predicate HasAll(s: Spool) {
    s.mid && s.to && s.from && s.date
  }

  /** The spool file once the missing headers are there. */
  function Completed(s: Spool, g: Generated, sender: Option<string>): string {
    if HasAll(s) then s.stored else Concat(NewLines(s, g, sender)) + s.stored
  }

  lemma {:induction false} ConcatNone()
    ensures Concat([]) == ""
  {
  }

  // ---------------------------------------------------------------- writing

  /** How the writes of the temporary file go: how many fputs calls succeed before one fails,
      and how much each fwrite of a block takes; after the last entry blocks are complete. */
  datatype Writes = Writes(puts: nat, blocks: seq<nat>)

  /** What one fwrite takes. */
  function Taken(block: string, blocks: seq<nat>): string {
    if blocks == [] || |block| <= blocks[0] then block else block[..blocks[0]]
  }

  /** The old file as it is copied in blocks; what a write does not take is dropped. */
  function Copied(file: string, blocks: seq<nat>): string
    decreases |file|
  {
    if |file| < BUFSIZE then Taken(file, blocks)
    else Taken(file[..BUFSIZE], blocks) + Copied(file[BUFSIZE..], if blocks == [] then [] else blocks[1..])
  }

  /** Every block is taken whole. */
  predicate Complete(file: string, blocks: seq<nat>)
    decreases |file|
  {
    blocks == [] ||
    (if |file| < BUFSIZE then |file| <= blocks[0]
     else BUFSIZE <= blocks[0] && Complete(file[BUFSIZE..], blocks[1..]))
  }

  /** The copy is whole exactly if every block was, and is shorter otherwise. */
  lemma {:induction false} CopiedExactly(file: string, blocks: seq<nat>)
    ensures |Copied(file, blocks)| <= |file|
    ensures Copied(file, blocks) == file <==> Complete(file, blocks)
    decreases |file|
  {
    if |file| >= BUFSIZE {
      var head, tail := file[..BUFSIZE], file[BUFSIZE..];
      assert head + tail == file;
      var more: seq<nat> := if blocks == [] then [] else blocks[1..];
      CopiedExactly(tail, more);
      var copy := Copied(tail, more);
      if blocks != [] && blocks[0] < BUFSIZE {
        assert |head[..blocks[0]] + copy| < |file|;
      } else {
        assert head + copy == file <==> copy == tail by {
          assert (head + copy)[BUFSIZE..] == copy;
        }
      }
    }
  }

  /** Writes the missing headers and the old file to a temporary file and puts it in the place
      of the queue file, which is None if it is gone afterwards. The flags say what the reader
      found. Only fputs is checked: blocks of the old file may be lost unnoticed. */
  method AppendMissingHeaders(s: Spool, g: Generated, sender: Option<string>, oldFile: string, disk: Disk, writes: Writes)
    returns (ret: int, file: Option<string>)
    ensures ret == if disk.create && disk.open && |NewLines(s, g, sender)| <= writes.puts && disk.reopen && disk.unlink && disk.rename then 0 else -1
    ensures (ret, file) == Replacement(s, g, sender, oldFile, disk, writes)
    ensures ret == 0 ==> file == Some(Concat(NewLines(s, g, sender)) + Copied(oldFile, writes.blocks))
    ensures ret == -1 ==>
              file == if disk.create && disk.open && |NewLines(s, g, sender)| <= writes.puts && disk.reopen && disk.unlink then None
                      else Some(oldFile)
  {
    hide NewLines, Concat, Copied;
    file := Some(oldFile);
    if !disk.create || !disk.open {
      return -1, file;
    }
    var newFile, ok := WriteHeaders(s, g, sender, writes.puts);
    if !ok || !disk.reopen {
      return -1, file;
    }
    newFile := CopyOld(newFile, oldFile, writes.blocks);
    if !disk.unlink {
      return -1, file;
    }
    file := None;
    if !disk.rename {
      return -1, file;
    }
    ret, file := 0, Some(newFile);
  }

  /** Writes what was not found, and a separator if no line had a colon. */
  method WriteHeaders(s: Spool, g: Generated, sender: Option<string>, puts: nat) returns (newFile: string, ok: bool)
    ensures ok <==> |NewLines(s, g, sender)| <= puts
    ensures ok ==> newFile == Concat(NewLines(s, g, sender))
  {
    hide HeaderLine, Concat, UNDISCLOSED, NewLines, NewHeaders, Unless, Shown;
    var nl := Shown(s.nl);
    newFile := "";
    ghost var lines: seq<string> := [];
    assert Concat([]) == "" by { ConcatNone(); }
    var left := puts;
    ok := true;
    newFile, ok, left, lines := WriteUnless(s.mid, newFile, ok, left, lines, HeaderLine(MessageId, g.id, nl));
    newFile, ok, left, lines := WriteUnless(s.date, newFile, ok, left, lines, HeaderLine(Date, g.date, nl));
    newFile, ok, left, lines := WriteUnless(s.from, newFile, ok, left, lines, HeaderLine(From, Shown(sender), nl));
    newFile, ok, left, lines := WriteUnless(s.to, newFile, ok, left, lines, HeaderLine(To, UNDISCLOSED, nl));
    newFile, ok, left, lines := WriteUnless(s.header, newFile, ok, left, lines, nl);
    InOrder(s, g, sender);
  }

  /** The lines in the order in which they are written. */
  lemma {:induction false} InOrder(s: Spool, g: Generated, sender: Option<string>)
    ensures var nl := Shown(s.nl);
            NewLines(s, g, sender) ==
            [] + (if s.mid then [] else [HeaderLine(MessageId, g.id, nl)]) + (if s.date then [] else [HeaderLine(Date, g.date, nl)]) +
            (if s.from then [] else [HeaderLine(From, Shown(sender), nl)]) + (if s.to then [] else [HeaderLine(To, UNDISCLOSED, nl)]) +
            if s.header then [] else [nl]
  {
    hide HeaderLine, UNDISCLOSED, Shown;
    assert [] + Unless(s.mid, MessageId, g.id, Shown(s.nl)) == Unless(s.mid, MessageId, g.id, Shown(s.nl));
  }

  /** Appends the old file in blocks until a read hits its end. */
  method CopyOld(start: string, oldFile: string, blocks: seq<nat>) returns (newFile: string)
    ensures newFile == start + Copied(oldFile, blocks)
  {
    hide Taken;
    newFile := start;
    var pos, eof, left := 0, false, blocks;
    assert oldFile[0..] == oldFile;
    while !eof
      invariant 0 <= pos <= |oldFile|
      invariant start + Copied(oldFile, blocks) == newFile + if eof then "" else Copied(oldFile[pos..], left)
      decreases |oldFile| - pos, !eof
    {
      ghost var rest := oldFile[pos..];
      var len := if |oldFile| - pos < BUFSIZE then |oldFile| - pos else BUFSIZE;
      var block := oldFile[pos..pos + len];
      eof := len < BUFSIZE;
      assert block == if eof then rest else rest[..BUFSIZE];
      assert !eof ==> rest[BUFSIZE..] == oldFile[pos + len..];
      var taken := Taken(block, left);
      left := if left == [] then [] else left[1..];
      assert !eof ==> newFile + (taken + Copied(oldFile[pos + len..], left)) == (newFile + taken) + Copied(oldFile[pos + len..], left);
      newFile := newFile + taken;
      pos := pos + len;
      assert newFile + "" == newFile;
    }
    assert newFile + "" == newFile;
  }

  /** One fputs, unless the header is there or an earlier one failed. */
  method WriteUnless(found: bool, file: string, ok: bool, left: nat, ghost lines: seq<string>, text: string)
    returns (file': string, ok': bool, left': nat, ghost lines': seq<string>)
    requires ok ==> file == Concat(lines)
    ensures lines' == lines + if found then [] else [text]
    ensures ok' <==> ok && |lines'| <= |lines| + left
    ensures ok' ==> file' == Concat(lines') && left' + |lines'| == left + |lines|
  {
    file', ok', left', lines' := file, ok, left, lines;
    assert lines + [] == lines;
    if !found {
      lines' := lines + [text];
      if ok && left > 0 {
        file', left' := file + text, left - 1;
        ConcatAppend(lines, [text]);
        assert Concat([text]) == text + Concat([]);
      } else {
        ok' := false;
      }
    }
  }

  /** What becomes of the queue file, with the result that is reported. */
  function Replacement(s: Spool, g: Generated, sender: Option<string>, oldFile: string, disk: Disk, writes: Writes): (int, Option<string>) {
    if disk.create && disk.open && |NewLines(s, g, sender)| <= writes.puts && disk.reopen && disk.unlink then
      if disk.rename then (0, Some(Concat(NewLines(s, g, sender)) + Copied(oldFile, writes.blocks))) else (-1, None)
    else (-1, Some(oldFile))
  }

  /** Success is reported although text is lost exactly if all checked steps went well and a
      block was not taken whole; and the file is gone exactly if the old one was removed and the
      new one not put in its place. */
  lemma {:induction false} LostUnnoticed(s: Spool, g: Generated, sender: Option<string>, oldFile: string, disk: Disk, writes: Writes)
    ensures var (ret, file) := Replacement(s, g, sender, oldFile, disk, writes);
            (ret == 0 && file != Some(Concat(NewLines(s, g, sender)) + oldFile) <==> ret == 0 && !Complete(oldFile, writes.blocks)) &&
            (ret == 0 && !Complete(oldFile, writes.blocks) ==> |file.value| < |Concat(NewLines(s, g, sender)) + oldFile|) &&
            (file == None ==> ret == -1 && disk.unlink && !disk.rename)
  {
    hide NewLines, Concat, Copied, Complete;
    CopiedExactly(oldFile, writes.blocks);
    var front, copy := Concat(NewLines(s, g, sender)), Copied(oldFile, writes.blocks);
    assert (front + copy)[|front|..] == copy && (front + oldFile)[|front|..] == oldFile;
    if |copy| == |oldFile| {
      SameLength(copy, oldFile, writes.blocks);
    }
  }

  /** A copy as long as the file is the file. */
  lemma {:induction false} SameLength(copy: string, file: string, blocks: seq<nat>)
    requires copy == Copied(file, blocks) && |copy| == |file|
    ensures copy == file
    decreases |file|
  {
    if |file| >= BUFSIZE {
      var more: seq<nat> := if blocks == [] then [] else blocks[1..];
      CopiedExactly(file[BUFSIZE..], more);
      SameLength(Copied(file[BUFSIZE..], more), file[BUFSIZE..], more);
      assert file == file[..BUFSIZE] + file[BUFSIZE..];
    }
  }

  // ---------------------------------------------------------------- flags

  lemma {:induction false} NoteAllAppend(s: Spool, a: seq<string>, b: seq<string>)
    ensures NoteAll(s, a + b) == NoteAll(NoteAll(s, a), b)
    decreases |a|
  {
    hide Note;
    if a == [] {
      assert a + b == b;
    } else {
      assert (a + b)[0] == a[0] && (a + b)[1..] == a[1..] + b;
      NoteAllAppend(Note(s, a[0], |Stuff(a[0])|), a[1..], b);
    }
  }

  /** t has every flag of s. */
  predicate Covers(t: Spool, s: Spool) {
    (s.mid ==> t.mid) && (s.to ==> t.to) && (s.from ==> t.from) && (s.date ==> t.date) && (s.header ==> t.header)
  }

  /** What has been found stays found. */
  lemma {:induction false} FlagsPersist(s: Spool, lines: seq<string>)
    ensures Covers(NoteAll(s, lines), s)
    decreases |lines|
  {
    hide HasPrefix, LineBreak, Stuff;
    if lines != [] {
      FlagsPersist(Note(s, lines[0], |Stuff(lines[0])|), lines[1..]);
    }
  }

  /** Two readers inside the same part of the message find the same headers. */
  lemma {:induction false} FlagsFollow(s: Spool, t: Spool, lines: seq<string>)
    requires Covers(t, s) && s.inHeader == t.inHeader
    ensures Covers(NoteAll(t, lines), NoteAll(s, lines))
    decreases |lines|
  {
    hide HasPrefix, LineBreak, Stuff, IsBlank;
    if lines != [] {
      FlagsFollow(Note(s, lines[0], |Stuff(lines[0])|), Note(t, lines[0], |Stuff(lines[0])|), lines[1..]);
    }
  }

  lemma {:induction false} ColonIn(l: string, p: string)
    requires HasPrefix(l, p) && p != "" && p[|p| - 1] == ':'
    ensures ':' in l
  {
    PrefixAt(l, p);
    assert Lower(l[|p| - 1]) == ':';
  }

  /** A header that was found is a line with a colon. */
  lemma {:induction false} FoundHasColon(s: Spool, lines: seq<string>)
    requires s.mid || s.to || s.from || s.date ==> s.header
    ensures var t := NoteAll(s, lines); t.mid || t.to || t.from || t.date ==> t.header
    decreases |lines|
  {
    if lines != [] {
      var l := lines[0];
      if HasPrefix(l, "Message-ID:") { ColonIn(l, "Message-ID:"); }
      if HasPrefix(l, "To:") { ColonIn(l, "To:"); }
      if HasPrefix(l, "From:") { ColonIn(l, "From:"); }
      if HasPrefix(l, "Date:") { ColonIn(l, "Date:"); }
      hide HasPrefix, LineBreak, Stuff, IsBlank;
      FoundHasColon(Note(s, l, |Stuff(l)|), lines[1..]);
    }
  }

  /** The line break is that of the first line. */
  lemma {:induction false} BreakPersists(s: Spool, lines: seq<string>)
    requires s.nl.Some?
    ensures NoteAll(s, lines).nl == s.nl
    decreases |lines|
  {
    hide HasPrefix, LineBreak, Stuff, IsBlank;
    if lines != [] {
      BreakPersists(Note(s, lines[0], |Stuff(lines[0])|), lines[1..]);
    }
  }

  predicate IsBreak(nl: string) {
    nl == "\r\n" || nl == "\n"
  }

  lemma {:induction false} BreakOfLines(lines: seq<string>, size0: nat)
    requires lines != [] && IsLine(lines[0])
    ensures var s := NoteAll(Start(size0), lines); s.nl.Some? && IsBreak(s.nl.value)
  {
    var first := Note(Start(size0), lines[0], |Stuff(lines[0])|);
    assert '\n' in lines[0];
    assert first.nl == LineBreak(lines[0]);
    BreakPersists(first, lines[1..]);
  }

  // ---------------------------------------------------------------- inserted lines

  lemma {:induction false} NameShape(f: Field)
    ensures |Name(f)| >= 3 && Name(f)[0] != '\r' && '\n' !in Name(f) && Name(f)[|Name(f)| - 1] == ':'
  {
  }

  lemma {:induction false} NameMatches(f: Field)
    ensures HasPrefix(Name(f), Pattern(f))
  {
    hide HasPrefix;
    if f.MessageId? {
      PrefixAt("Message-Id:", "Message-ID:");
    } else {
      assert Name(f) + "" == Name(f);
      PrefixExtends(Pattern(f), "");
    }
  }

  lemma {:induction false} HeaderLineShape(f: Field, value: string, nl: string)
    requires IsBreak(nl) && '\n' !in value
    ensures var l := HeaderLine(f, value, nl);
            IsLine(l) && !IsBlank(l) && ':' in l && HasPrefix(l, Pattern(f))
  {
    NameShape(f);
    NameMatches(f);
    hide Name, Pattern;
    var name, l := Name(f), HeaderLine(f, value, nl);
    assert l[|name| - 1] == ':';
    assert l[0] == name[0] && name[0] in name;
    PrefixAt(l, "\n");
    PrefixAt(l, "\r\n");
    PrefixAt(l, "\r");
    PrefixAt(l, Pattern(f));
    PrefixAt(name, Pattern(f));
  }

  lemma {:induction false} HeaderLineIsNoted(s: Spool, f: Field, value: string, nl: string)
    requires IsBreak(nl) && '\n' !in value && s.inHeader
    ensures var l := HeaderLine(f, value, nl);
            IsLine(l) &&
            var t := Note(s, l, |Stuff(l)|);
            Covers(t, s) && t.inHeader && t.header && Found(t, f)
  {
    HeaderLineShape(f, value, nl);
    hide HasPrefix, LineBreak, Stuff, HeaderLine, Name, IsLine, IsBlank;
  }

  /** One of the lines that may be inserted, or nothing, behind those inserted before. */
  lemma {:induction false} OptionalHeader(before: seq<string>, present: bool, f: Field, value: string, nl: string)
    returns (lines: seq<string>)
    requires AreLines(before) && NoteAll(Start(0), before).inHeader
    requires IsBreak(nl) && '\n' !in value
    ensures lines == before + Unless(present, f, value, nl)
    ensures AreLines(lines) && NoteAll(Start(0), lines).inHeader
    ensures Covers(NoteAll(Start(0), lines), NoteAll(Start(0), before))
    ensures !present ==> NoteAll(Start(0), lines).header && Found(NoteAll(Start(0), lines), f)
  {
    var s := NoteAll(Start(0), before);
    HeaderLineIsNoted(s, f, value, nl);
    hide HasPrefix, Note, HeaderLine, IsLine, IsBreak, Found, Covers;
    CoversSelf(s);
    var l := HeaderLine(f, value, nl);
    lines := before + Unless(present, f, value, nl);
    assert before + [] == before;
    NoteAllAppend(Start(0), before, [l]);
  }

  lemma {:induction false} CoversSelf(s: Spool)
    ensures Covers(s, s)
  {
  }

  lemma {:induction false} InsertedHeaders(s: Spool, g: Generated, sender: Option<string>, nl: string)
    requires IsBreak(nl) && '\n' !in g.id && '\n' !in g.date && '\n' !in Shown(sender)
    ensures AreLines(NewHeaders(s, g, sender, nl))
    ensures var t := NoteAll(Start(0), NewHeaders(s, g, sender, nl));
            (s.mid || t.mid) && (s.date || t.date) && (s.from || t.from) && (s.to || t.to) &&
            (!HasAll(s) ==> t.header) && t.inHeader
  {
    NothingInserted();
    hide HasPrefix, Note, NoteAll, HeaderLine, IsBreak, IsLine, AreLines, UNDISCLOSED, Shown, Unless;
    var l1 := OptionalHeader([], s.mid, MessageId, g.id, nl);
    assert l1 == Unless(s.mid, MessageId, g.id, nl);
    var l2 := OptionalHeader(l1, s.date, Date, g.date, nl);
    var l3 := OptionalHeader(l2, s.from, From, Shown(sender), nl);
    var l4 := OptionalHeader(l3, s.to, To, UNDISCLOSED, nl);
    assert l4 == NewHeaders(s, g, sender, nl);
  }

  lemma {:induction false} NothingInserted()
    ensures AreLines([]) && NoteAll(Start(0), []) == Start(0) && '\n' !in UNDISCLOSED
  {
  }

  /** Reading the inserted lines finds every header that was missing. */
  lemma {:induction false} InsertedLines(s: Spool, g: Generated, sender: Option<string>)
    requires s.nl.Some? && IsBreak(s.nl.value)
    requires '\n' !in g.id && '\n' !in g.date && '\n' !in Shown(sender)
    ensures AreLines(NewLines(s, g, sender))
    ensures var t := NoteAll(Start(0), NewLines(s, g, sender));
            (s.mid || t.mid) && (s.date || t.date) && (s.from || t.from) && (s.to || t.to) &&
            (!HasAll(s) ==> t.header) && (s.header ==> t.inHeader)
  {
    var nl := s.nl.value;
    assert IsLine(nl);
    hide NewHeaders, NoteAll, IsLine, IsBreak;
    InsertedHeaders(s, g, sender, nl);
    var lines := NewHeaders(s, g, sender, nl);
    var last := if s.header then [] else [nl];
    NoteAllAppend(Start(0), lines, last);
    FlagsPersist(NoteAll(Start(0), lines), last);
    if s.header {
      assert lines + last == lines;
    }
  }

  // ---------------------------------------------------------------- what is found

  /** A header line of the kind stands in front of the first blank line. */
  ghost predicate Present(lines: seq<string>, f: Field) {
    exists i :: 0 <= i < |lines| && HasPrefix(lines[i], Pattern(f)) && forall j :: 0 <= j < i ==> !IsBlank(lines[j])
  }

  ghost predicate AnyColon(lines: seq<string>) {
    exists i :: 0 <= i < |lines| && ':' in lines[i]
  }

  lemma {:induction false} PresentAppend(lines: seq<string>, l: string, f: Field)
    ensures Present(lines + [l], f) <==>
            Present(lines, f) || (HasPrefix(l, Pattern(f)) && forall j :: 0 <= j < |lines| ==> !IsBlank(lines[j]))
  {
    hide HasPrefix, Pattern, IsBlank;
    var all := lines + [l];
    if i :| 0 <= i < |all| && HasPrefix(all[i], Pattern(f)) && forall j :: 0 <= j < i ==> !IsBlank(all[j]) {
      if i < |lines| {
        assert forall j :: 0 <= j < i ==> all[j] == lines[j];
        assert Present(lines, f);
      } else {
        assert forall j :: 0 <= j < |lines| ==> all[j] == lines[j];
      }
    }
    if i :| 0 <= i < |lines| && HasPrefix(lines[i], Pattern(f)) && forall j :: 0 <= j < i ==> !IsBlank(lines[j]) {
      assert HasPrefix(all[i], Pattern(f)) && forall j :: 0 <= j < i ==> !IsBlank(all[j]);
    }
    if HasPrefix(l, Pattern(f)) && forall j :: 0 <= j < |lines| ==> !IsBlank(lines[j]) {
      assert HasPrefix(all[|lines|], Pattern(f)) && forall j :: 0 <= j < |lines| ==> !IsBlank(all[j]);
    }
  }

  lemma {:induction false} ColonAppend(lines: seq<string>, l: string)
    ensures AnyColon(lines + [l]) <==> AnyColon(lines) || ':' in l
  {
    var all := lines + [l];
    if i :| 0 <= i < |all| && ':' in all[i] {
      assert i < |lines| ==> ':' in lines[i];
    }
    if i :| 0 <= i < |lines| && ':' in lines[i] {
      assert ':' in all[i];
    }
    if ':' in l {
      assert ':' in all[|lines|];
    }
  }

  /** The flags in terms of the lines alone: a header counts in front of the first blank line
      only, while the separator flag counts colons anywhere, in the body too. */
  lemma {:induction false} FoundExactly(lines: seq<string>, size0: nat, f: Field)
    ensures var s := NoteAll(Start(size0), lines);
            (Found(s, f) <==> Present(lines, f)) &&
            (s.header <==> AnyColon(lines)) &&
            (s.inHeader <==> forall j :: 0 <= j < |lines| ==> !IsBlank(lines[j]))
    decreases |lines|
  {
    if lines != [] {
      var n := |lines| - 1;
      var before, l := lines[..n], lines[n];
      assert lines == before + [l];
      FoundExactly(before, size0, f);
      hide HasPrefix, IsBlank, LineBreak, Stuff, Present, AnyColon;
      assert forall j :: 0 <= j < n ==> lines[j] == before[j];
      PresentAppend(before, l, f);
      ColonAppend(before, l);
      NoteAllAppend(Start(size0), before, [l]);
      var s := NoteAll(Start(size0), before);
      assert NoteAll(s, [l]) == Note(s, l, |Stuff(l)|);
    }
  }

  /** The four flags in plain words: the header stands, in any case, in front of the first line
      that starts with a line break. */
  lemma {:induction false} FoundByName(lines: seq<string>, size0: nat)
    ensures var s := NoteAll(Start(size0), lines);
            (s.mid <==> Stands(lines, "Message-ID:")) && (s.date <==> Stands(lines, "Date:")) &&
            (s.from <==> Stands(lines, "From:")) && (s.to <==> Stands(lines, "To:"))
  {
    hide HasPrefix, IsBlank, NoteAll, Present, Stands;
    FoundExactly(lines, size0, MessageId);
    FoundExactly(lines, size0, Date);
    FoundExactly(lines, size0, From);
    FoundExactly(lines, size0, To);
    StandsIs(lines, MessageId);
    StandsIs(lines, Date);
    StandsIs(lines, From);
    StandsIs(lines, To);
  }

  ghost predicate Stands(lines: seq<string>, name: string) {
    exists i :: 0 <= i < |lines| && HasPrefix(lines[i], name) &&
                forall j :: 0 <= j < i ==> lines[j] == "" || (lines[j][0] != '\n' && lines[j][0] != '\r')
  }

  lemma {:induction false} StandsIs(lines: seq<string>, f: Field)
    ensures Present(lines, f) <==> Stands(lines, Pattern(f))
  {
    hide HasPrefix, IsBlank, Pattern;
    forall j | 0 <= j < |lines|
      ensures IsBlank(lines[j]) <==> lines[j] != "" && (lines[j][0] == '\n' || lines[j][0] == '\r')
    {
      BlankIs(lines[j]);
    }
  }

  /** The text put in front of a message without any header. */
  lemma {:induction false} InsertedText(s: Spool, g: Generated, sender: string, nl: string)
    requires !s.mid && !s.date && !s.from && !s.to && s.header && s.nl == Some(nl)
    ensures Concat(NewLines(s, g, Some(sender))) ==
            "Message-Id: " + g.id + nl + "Date: " + g.date + nl + "From: " + sender + nl + "To: undisclosed-recipients:;" + nl
  {
    var lines := NewLines(s, g, Some(sender));
    var a, b, c, d := "Message-Id: " + g.id + nl, "Date: " + g.date + nl, "From: " + sender + nl, "To: undisclosed-recipients:;" + nl;
    HeaderTexts(g, sender, nl);
    hide HeaderLine, UNDISCLOSED, Concat;
    assert lines == [a, b, c, d];
    ConcatFour(a, b, c, d);
    assert a + b + c + d == "Message-Id: " + g.id + nl + "Date: " + g.date + nl + "From: " + sender + nl + "To: undisclosed-recipients:;" + nl;
  }

  lemma {:induction false} HeaderTexts(g: Generated, sender: string, nl: string)
    ensures HeaderLine(MessageId, g.id, nl) == "Message-Id: " + g.id + nl
    ensures HeaderLine(Date, g.date, nl) == "Date: " + g.date + nl
    ensures HeaderLine(From, sender, nl) == "From: " + sender + nl
    ensures HeaderLine(To, UNDISCLOSED, nl) == "To: undisclosed-recipients:;" + nl
  {
    assert "Message-Id:" + " " == "Message-Id: " && "Date:" + " " == "Date: " && "From:" + " " == "From: ";
    assert "To:" + " " + UNDISCLOSED == "To: undisclosed-recipients:;";
  }

  lemma {:induction false} ConcatFour(a: string, b: string, c: string, d: string)
    ensures Concat([a, b, c, d]) == a + b + c + d
  {
    assert [a, b, c, d][1..] == [b, c, d] && [b, c, d][1..] == [c, d] && [c, d][1..] == [d] && [d][1..] == [];
    assert Concat([d]) == d && Concat([c, d]) == c + d;
  }

  /** Without a sender, or without any line break in the spool, that text says so. */
  lemma {:induction false} NothingKnown(s: Spool, g: Generated)
    requires !s.mid && s.date && s.from && s.to && s.header && s.nl == None
    ensures Concat(NewLines(s, g, None)) == "Message-Id: " + g.id + "(null)"
  {
    HeaderTexts(g, "", "(null)");
    hide HeaderLine;
    assert NewLines(s, g, None) == [HeaderLine(MessageId, g.id, "(null)")];
    var l := HeaderLine(MessageId, g.id, "(null)");
    assert Concat([l]) == l + Concat([]);
  }
}
