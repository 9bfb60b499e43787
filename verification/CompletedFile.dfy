/** The completed spool file, read again by a reader with a buffer of any size. */
module CompletedFile {
  import opened Text
  import opened LineReader
  import opened DataReader
  import opened LongLines
  import opened HeaderCompletion
  import opened Options

  // ---------------------------------------------------------------- reading a file

  /** A file cut behind each line feed, and where the reader's buffer is full. With a limit of
      at least the length of the file these are its whole lines. */
  function Split(file: string, limit: nat): seq<string>
    requires limit > 0
    decreases |file|
  {
    if file == "" then [] else
      var n := Cut(file, limit);
      [file[..n]] + Split(file[n..], limit)
  }

  lemma {:induction false} SplitStep(file: string, limit: nat)
    requires limit > 0
    ensures var n := Cut(file, limit);
            Split(file, limit) == if file == "" then [] else [file[..n]] + Split(file[n..], limit)
  {
    hide Cut;
  }

  /** What a reader finds in the file. */
  function Rescan(file: string, limit: nat): Spool
    requires limit > 0
  {
    NoteAll(Start(0), Split(file, limit))
  }

  lemma {:induction false} SplitLine(l: string, rest: string, limit: nat)
    requires limit > 0 && IsLine(l) && |l| <= limit
    ensures Split(l + rest, limit) == [l] + Split(rest, limit)
  {
    CutLine(l, rest, limit);
    SplitStep(l + rest, limit);
    hide Cut, Split;
    LineNotEmpty(l);
    assert l + rest != "";
  }

  /** Whole lines in front of a file are cut off one by one. */
  lemma {:induction false} SplitFront(front: seq<string>, file: string, limit: nat)
    requires limit > 0 && AreLines(front) && forall i :: 0 <= i < |front| ==> |front[i]| <= limit
    ensures Split(Concat(front) + file, limit) == front + Split(file, limit)
    decreases |front|
  {
    hide IsLine, Cut, Split;
    var found := Split(file, limit);
    if front == [] {
      assert Concat(front) + file == file;
      assert front + found == found;
    } else {
      var tail := front[1..];
      var rest := Concat(tail) + file;
      SplitFront(tail, file, limit);
      SplitLine(front[0], rest, limit);
      assert Concat(front) + file == front[0] + rest;
      assert [front[0]] + tail == front;
      assert [front[0]] + (tail + found) == ([front[0]] + tail) + found;
    }
  }

  lemma {:induction false} LineNotEmpty(l: string)
    requires IsLine(l)
    ensures l != "" && '\n' in l
  {
  }

  lemma {:induction false} SplitKeeps(file: string, limit: nat)
    requires limit > 0
    ensures Concat(Split(file, limit)) == file
    decreases |file|
  {
    hide Cut, Split;
    SplitStep(file, limit);
    if file != "" {
      var n := Cut(file, limit);
      var rest := file[n..];
      CutSome(file, limit);
      SplitKeeps(rest, limit);
      assert ([file[..n]] + Split(rest, limit))[1..] == Split(rest, limit);
      assert file == file[..n] + rest;
    }
  }

  lemma {:induction false} CutSome(file: string, limit: nat)
    requires limit > 0 && file != ""
    ensures 0 < Cut(file, limit) <= |file|
  {
  }

  lemma {:induction false} MergedCut(front: string, file: string, limit: nat)
    requires '\n' !in front && front != "" && |front + file| <= limit
    ensures Cut(front + file, limit) == |front| + Cut(file, limit)
  {
    var done := front + file;
    var n := Cut(file, limit);
    assert done[..|front| + n] == front + file[..n];
    if n > 0 {
      assert done[..|front| + n - 1] == front + file[..n - 1] && done[|front| + n - 1] == file[n - 1];
    } else {
      assert done[|front| - 1] == front[|front| - 1] && front[|front| - 1] in front;
    }
    CutIs(done, limit, |front| + n);
  }

  /** Text without a line feed in front of a file merges with its first line. */
  lemma {:induction false} SplitMerged(front: string, file: string, limit: nat)
    requires '\n' !in front && front != "" && |front + file| <= limit
    ensures Split(front + file, limit) ==
            var l := Split(file, limit);
            if l == [] then [front] else [front + l[0]] + l[1..]
  {
    hide Cut, Split;
    MergedCut(front, file, limit);
    SplitStep(front + file, limit);
    SplitStep(file, limit);
    SplitStep("", limit);
    var done := front + file;
    var n := Cut(file, limit);
    assert done[..|front| + n] == front + file[..n] && done[|front| + n..] == file[n..];
    if file == "" {
      assert front + "" == front;
    } else {
      var more := Split(file[n..], limit);
      assert ([file[..n]] + more)[1..] == more;
    }
  }

  lemma {:induction false} PartFits(lines: seq<string>, i: nat)
    requires i < |lines|
    ensures |lines[i]| <= |Concat(lines)|
  {
    if i > 0 {
      PartFits(lines[1..], i - 1);
    }
  }

  // ---------------------------------------------------------------- the first reading

  /** The spool is what noting these pieces leaves; what was counted does not matter here. */
  predicate Reads(s: Spool, pieces: seq<string>) {
    s == NoteAll(Start(0), pieces).(size := s.size)
  }

  /** Whatever arrives, the DATA loop notes the pieces its reader returns. */
  lemma {:induction false} ReceivedReads(input: string, fails: bool, size0: nat)
    ensures Reads(Receive(input, fails, Start(size0)).spool, Noted(input, fails))
  {
    hide Receive, Noted, NoteAll;
    ReceiveNotes(input, fails, Start(size0));
    SizeApart(Start(0), Start(size0), Noted(input, fails));
  }

  lemma {:induction false} ReadsStored(s: Spool, pieces: seq<string>)
    requires Reads(s, pieces)
    ensures s.stored == Concat(pieces)
    ensures s.mid || s.to || s.from || s.date ==> s.header
  {
    hide NoteAll;
    NoteAllStores(Start(0), pieces);
    assert "" + Concat(pieces) == Concat(pieces);
    FoundHasColon(Start(0), pieces);
  }

  /** The line break written behind inserted headers is one. */
  predicate Breaks(s: Spool) {
    s.nl.Some? && IsBreak(s.nl.value)
  }

  /** The first piece with a carriage return or a line feed has a line feed. */
  ghost predicate FirstBreakFeeds(pieces: seq<string>) {
    exists i :: 0 <= i < |pieces| && '\n' in pieces[i] &&
                forall j :: 0 <= j < i ==> '\r' !in pieces[j] && '\n' !in pieces[j]
  }

  ghost predicate NoBreak(pieces: seq<string>) {
    forall i :: 0 <= i < |pieces| ==> '\r' !in pieces[i] && '\n' !in pieces[i]
  }

  lemma {:induction false} LineBreakIs(l: string)
    ensures LineBreak(l).None? <==> '\r' !in l && '\n' !in l
    ensures LineBreak(l).Some? && IsBreak(LineBreak(l).value) <==> '\n' in l
    ensures LineBreak(l).Some? && '\n' !in l ==> LineBreak(l) == Some("\r")
  {
    assert forall i :: 0 <= i < |l| ==> l[i] in l;
    assert "\r" != "\n" && "\r" != "\r\n";
  }

  lemma {:induction false} FirstBreakAppend(pieces: seq<string>, l: string)
    ensures FirstBreakFeeds(pieces + [l]) <==> FirstBreakFeeds(pieces) || (NoBreak(pieces) && '\n' in l)
    ensures NoBreak(pieces + [l]) <==> NoBreak(pieces) && '\r' !in l && '\n' !in l
  {
    var all := pieces + [l];
    assert forall i :: 0 <= i < |pieces| ==> all[i] == pieces[i];
    if i :| 0 <= i < |pieces| && '\n' in pieces[i] && forall j :: 0 <= j < i ==> '\r' !in pieces[j] && '\n' !in pieces[j] {
      assert '\n' in all[i] && forall j :: 0 <= j < i ==> '\r' !in all[j] && '\n' !in all[j];
    }
    if NoBreak(pieces) && '\n' in l {
      assert '\n' in all[|pieces|] && forall j :: 0 <= j < |pieces| ==> '\r' !in all[j] && '\n' !in all[j];
    }
    if NoBreak(pieces) && '\r' !in l && '\n' !in l {
      assert forall i :: 0 <= i < |all| ==> '\r' !in all[i] && '\n' !in all[i];
    }
    assert all[|pieces|] == l;
  }

  lemma {:induction false} BreakIs(pieces: seq<string>)
    ensures var nl := NoteAll(Start(0), pieces).nl;
            (nl.None? <==> NoBreak(pieces)) &&
            (nl.Some? && IsBreak(nl.value) <==> FirstBreakFeeds(pieces)) &&
            (nl.Some? && !IsBreak(nl.value) ==> nl == Some("\r"))
    decreases |pieces|
  {
    if pieces != [] {
      var n := |pieces| - 1;
      var before, l := pieces[..n], pieces[n];
      assert pieces == before + [l];
      BreakIs(before);
      LineBreakIs(l);
      FirstBreakAppend(before, l);
      hide HasPrefix, LineBreak, IsBlank, Stuff, IsBreak, FirstBreakFeeds, NoBreak;
      NoteAllAppend(Start(0), before, [l]);
      var s := NoteAll(Start(0), before);
      assert NoteAll(s, [l]) == Note(s, l, |Stuff(l)|);
    }
  }

  /** Which piece decides about the line break. */
  lemma {:induction false} BreaksExactly(input: string, fails: bool, size0: nat)
    ensures Breaks(Receive(input, fails, Start(size0)).spool) <==> FirstBreakFeeds(Noted(input, fails))
  {
    hide Receive, Noted, NoteAll, IsBreak, FirstBreakFeeds;
    ReceivedReads(input, fails, size0);
    BreakIs(Noted(input, fails));
  }

  // ---------------------------------------------------------------- the second reading

  /** Every header that was found is found again in the spooled text. */
  ghost predicate KeepsFound(s: Spool, limit: nat)
    requires limit > 0
  {
    forall f: Field :: Found(s, f) ==> Found(Rescan(s.stored, limit), f)
  }

  /** What an inserted line break that is none leaves to be found: the header written first
      is followed by everything up to the end of the old first line, so all others must stand
      in later lines. */
  ghost predicate FoundLaterOn(s: Spool, limit: nat)
    requires limit > 0
  {
    var l := Split(s.stored, limit);
    var later := if l == [] then [] else l[1..];
    forall f: Field :: f == FirstMissing(s) || Present(later, f)
  }

  function FirstMissing(s: Spool): Field {
    if !s.mid then MessageId else if !s.date then Date else if !s.from then From else To
  }

  /** A single flag depends on the lines, not on the other flags. */
  lemma {:induction false} FlagFollows(s: Spool, t: Spool, lines: seq<string>, f: Field)
    requires s.inHeader == t.inHeader && (Found(t, f) ==> Found(s, f))
    ensures Found(NoteAll(t, lines), f) ==> Found(NoteAll(s, lines), f)
    decreases |lines|
  {
    hide HasPrefix, LineBreak, Stuff, IsBlank;
    if lines != [] {
      var br := |Stuff(lines[0])|;
      FlagFollows(Note(s, lines[0], br), Note(t, lines[0], br), lines[1..], f);
    }
  }

  /** A line that starts with one header name starts with no other, and is not blank. */
  lemma {:induction false} OwnPrefix(name: Field, rest: string, f: Field)
    ensures HasPrefix(Name(name) + rest, Pattern(f)) <==> name == f
    ensures !IsBlank(Name(name) + rest)
  {
    var l := Name(name) + rest;
    NameShape(name);
    NameMatches(name);
    FirstLetters(name, f);
    hide Name, Pattern;
    assert l[0] == Name(name)[0] && Name(name)[0] in Name(name);
    PrefixAt(l, Pattern(f));
    PrefixAt(Name(name), Pattern(f));
    PrefixAt(l, "\n");
    PrefixAt(l, "\r\n");
    PrefixAt(l, "\r");
  }

  lemma {:induction false} FirstLetters(f: Field, g: Field)
    ensures Pattern(g) != "" && |Pattern(f)| == |Name(f)|
    ensures Lower(Name(f)[0]) == Lower(Pattern(g)[0]) ==> f == g
  {
  }

  lemma {:induction false} NoteOther(s: Spool, l: string, br: nat, f: Field)
    requires !Found(s, f) && !HasPrefix(l, Pattern(f))
    ensures !Found(Note(s, l, br), f)
  {
    hide HasPrefix, LineBreak, IsBlank;
  }

  lemma {:induction false} NoteLast(lines: seq<string>, l: string)
    ensures NoteAll(Start(0), lines + [l]) == Note(NoteAll(Start(0), lines), l, |Stuff(l)|)
  {
    hide Note, Stuff;
    NoteAllAppend(Start(0), lines, [l]);
    var s := NoteAll(Start(0), lines);
    assert NoteAll(s, [l]) == NoteAll(Note(s, l, |Stuff(l)|), []);
  }

  lemma {:induction false} KeepsMissing(before: seq<string>, present: bool, name: Field, value: string, nl: string, f: Field)
    requires !Found(NoteAll(Start(0), before), f) && (name == f ==> present)
    ensures !Found(NoteAll(Start(0), before + Unless(present, name, value, nl)), f)
  {
    var l := HeaderLine(name, value, nl);
    assert l == Name(name) + (" " + value + nl);
    hide Name, HeaderLine, Pattern, HasPrefix, Found, Note, NoteAll;
    if present {
      assert before + [] == before;
    } else {
      OwnPrefix(name, " " + value + nl, f);
      NoteLast(before, l);
      NoteOther(NoteAll(Start(0), before), l, |Stuff(l)|, f);
    }
  }

  /** No header is inserted that was found. */
  lemma {:induction false} NotInserted(s: Spool, g: Generated, sender: Option<string>, nl: string, f: Field)
    requires Found(s, f)
    ensures !Found(NoteAll(Start(0), NewHeaders(s, g, sender, nl)), f)
  {
    hide NoteAll, UNDISCLOSED, Shown, Unless;
    assert !Found(NoteAll(Start(0), []), f) by { NothingNoted(f); }
    var h1 := Unless(s.mid, MessageId, g.id, nl);
    var h2 := Unless(s.date, Date, g.date, nl);
    var h3 := Unless(s.from, From, Shown(sender), nl);
    var h4 := Unless(s.to, To, UNDISCLOSED, nl);
    assert [] + h1 == h1;
    KeepsMissing([], s.mid, MessageId, g.id, nl, f);
    KeepsMissing(h1, s.date, Date, g.date, nl, f);
    KeepsMissing(h1 + h2, s.from, From, Shown(sender), nl, f);
    KeepsMissing(h1 + h2 + h3, s.to, To, UNDISCLOSED, nl, f);
  }

  lemma {:induction false} NothingNoted(f: Field)
    ensures NoteAll(Start(0), []) == Start(0) && !Found(Start(0), f)
  {
  }

  /** The lines written in front of the message, if there is anything to write. */
  function Front(s: Spool, g: Generated, sender: Option<string>): seq<string> {
    if HasAll(s) then [] else NewLines(s, g, sender)
  }

  lemma {:induction false} CompletedIs(s: Spool, g: Generated, sender: Option<string>)
    ensures Completed(s, g, sender) == Concat(Front(s, g, sender)) + s.stored
  {
    ConcatNone();
    assert "" + s.stored == s.stored;
  }

  /** Facts about what is written in front if line breaks are line breaks. */
  lemma {:induction false} FrontFinds(s: Spool, g: Generated, sender: Option<string>)
    requires HasAll(s) || Breaks(s)
    requires s.mid || s.to || s.from || s.date ==> s.header
    requires '\n' !in g.id && '\n' !in g.date && '\n' !in Shown(sender)
    ensures AreLines(Front(s, g, sender))
    ensures var t := NoteAll(Start(0), Front(s, g, sender));
            (forall f: Field :: !Found(s, f) ==> Found(t, f)) && (s.header ==> t.inHeader) &&
            (forall f: Field :: Found(s, f) ==> !Found(t, f))
  {
    if HasAll(s) {
      assert NoteAll(Start(0), []) == Start(0);
    } else {
      InsertedLines(s, g, sender);
      forall f: Field | Found(s, f)
        ensures !Found(NoteAll(Start(0), NewLines(s, g, sender)), f)
      {
        NotInserted(s, g, sender, Shown(s.nl), f);
        assert NewHeaders(s, g, sender, Shown(s.nl)) + [] == NewHeaders(s, g, sender, Shown(s.nl));
      }
    }
  }

  /** Behind such a front exactly the headers that were not found, and those that are found
      again, are found. */
  lemma {:induction false} FoundBehind(s: Spool, front: seq<string>, lines: seq<string>, f: Field)
    requires var t := NoteAll(Start(0), front);
             (forall f: Field :: !Found(s, f) ==> Found(t, f)) && (s.header ==> t.inHeader) &&
             (forall f: Field :: Found(s, f) ==> !Found(t, f))
    requires s.mid || s.to || s.from || s.date ==> s.header
    ensures Found(NoteAll(NoteAll(Start(0), front), lines), f) <==> !Found(s, f) || Found(NoteAll(Start(0), lines), f)
  {
    var t := NoteAll(Start(0), front);
    FlagsPersist(t, lines);
    if Found(s, f) {
      FlagFollows(Start(0), t, lines, f);
      FlagFollows(t, Start(0), lines, f);
    }
  }

  lemma {:induction false} AllFound(s: Spool)
    ensures HasAll(s) <==> forall f: Field :: Found(s, f)
  {
    if forall f: Field :: Found(s, f) {
      assert Found(s, MessageId) && Found(s, Date) && Found(s, From) && Found(s, To);
    }
  }

  /** With a proper line break, or nothing to insert, the completed file shows all headers if
      and only if those that were found are found again. */
  lemma {:induction false} ProperBreak(s: Spool, pieces: seq<string>, g: Generated, sender: Option<string>, limit: nat)
    requires Reads(s, pieces) && (HasAll(s) || Breaks(s)) && limit > 0
    requires '\n' !in g.id && '\n' !in g.date && '\n' !in Shown(sender)
    requires forall i :: 0 <= i < |Front(s, g, sender)| ==> |Front(s, g, sender)[i]| <= limit
    ensures HasAll(Rescan(Completed(s, g, sender), limit)) <==> KeepsFound(s, limit)
  {
    ReadsStored(s, pieces);
    FrontFinds(s, g, sender);
    CompletedIs(s, g, sender);
    var front := Front(s, g, sender);
    var lines := Split(s.stored, limit);
    hide Front, Split, NoteAll, Concat, Found, HasAll, AreLines, Breaks, Reads, Completed;
    SplitFront(front, s.stored, limit);
    NoteAllAppend(Start(0), front, lines);
    var u := NoteAll(NoteAll(Start(0), front), lines);
    AllFound(u);
    forall f: Field
      ensures Found(u, f) <==> !Found(s, f) || Found(NoteAll(Start(0), lines), f)
    {
      FoundBehind(s, front, lines, f);
    }
  }

  // ---------------------------------------------------------------- without a line break

  ghost predicate PresentAt(lines: seq<string>, f: Field, i: nat)
    requires i < |lines|
  {
    HasPrefix(lines[i], Pattern(f)) && forall j :: 0 <= j < i ==> !IsBlank(lines[j])
  }

  lemma {:induction false} PresentIs(lines: seq<string>, f: Field)
    ensures Present(lines, f) <==> exists i: nat :: i < |lines| && PresentAt(lines, f, i)
  {
    hide HasPrefix, Pattern, IsBlank;
    if i :| 0 <= i < |lines| && HasPrefix(lines[i], Pattern(f)) && forall j :: 0 <= j < i ==> !IsBlank(lines[j]) {
      assert PresentAt(lines, f, i);
    }
  }

  lemma {:induction false} PresentShift(l: string, lines: seq<string>, f: Field, i: nat)
    requires i < |lines|
    ensures PresentAt([l] + lines, f, i + 1) <==> !IsBlank(l) && PresentAt(lines, f, i)
  {
    hide HasPrefix, Pattern, IsBlank;
    var all := [l] + lines;
    assert all[0] == l && forall j :: 0 <= j < |lines| ==> lines[j] == all[j + 1];
    if PresentAt(all, f, i + 1) {
      assert !IsBlank(all[0]);
    }
    if !IsBlank(l) && PresentAt(lines, f, i) {
      forall j | 0 <= j < i + 1
        ensures !IsBlank(all[j])
      {
        assert j > 0 ==> all[j] == lines[j - 1];
      }
    }
  }

  lemma {:induction false} PresentCons(l: string, lines: seq<string>, f: Field)
    ensures Present([l] + lines, f) <==> HasPrefix(l, Pattern(f)) || (!IsBlank(l) && Present(lines, f))
  {
    var all := [l] + lines;
    PresentIs(all, f);
    PresentIs(lines, f);
    assert PresentAt(all, f, 0) <==> HasPrefix(l, Pattern(f));
    hide Present, PresentAt, HasPrefix, IsBlank;
    if i: nat :| i < |all| && PresentAt(all, f, i) {
      if i > 0 {
        PresentShift(l, lines, f, i - 1);
      }
    }
    if i: nat :| i < |lines| && PresentAt(lines, f, i) {
      PresentShift(l, lines, f, i);
    }
  }

  lemma {:induction false} ConcatLacks(lines: seq<string>, c: char)
    requires forall i :: 0 <= i < |lines| ==> c !in lines[i]
    ensures c !in Concat(lines)
  {
    if lines != [] {
      ConcatLacks(lines[1..], c);
    }
  }

  lemma {:induction false} LacksLineFeed(s: Spool, g: Generated, sender: Option<string>)
    requires '\n' !in Shown(s.nl)
    requires '\n' !in g.id && '\n' !in g.date && '\n' !in Shown(sender)
    ensures '\n' !in Concat(NewLines(s, g, sender))
  {
    NameShape(MessageId);
    NameShape(Date);
    NameShape(From);
    NameShape(To);
    NothingInserted();
    hide Name, UNDISCLOSED, Concat, Shown;
    ConcatLacks(NewLines(s, g, sender), '\n');
  }

  /** The inserted text starts with the name of the first missing header. */
  lemma {:induction false} FrontStarts(s: Spool, g: Generated, sender: Option<string>) returns (rest: string)
    requires !HasAll(s)
    ensures Concat(NewLines(s, g, sender)) == Name(FirstMissing(s)) + rest
  {
    hide Name, UNDISCLOSED, Shown, Concat;
    var lines := NewLines(s, g, sender);
    var nl := Shown(s.nl);
    var f := FirstMissing(s);
    var value := if f.MessageId? then g.id else if f.Date? then g.date else if f.From? then Shown(sender) else UNDISCLOSED;
    assert lines[0] == HeaderLine(f, value, nl) == Name(f) + (" " + value + nl);
    ConcatHead(lines);
    rest := (" " + value + nl) + Concat(lines[1..]);
    assert (Name(f) + (" " + value + nl)) + Concat(lines[1..]) == Name(f) + rest;
  }

  lemma {:induction false} ConcatHead(lines: seq<string>)
    requires lines != []
    ensures Concat(lines) == lines[0] + Concat(lines[1..])
  {
  }

  lemma {:induction false} NoFeedInBreak(s: Spool, pieces: seq<string>)
    requires Reads(s, pieces) && !Breaks(s)
    ensures '\n' !in Shown(s.nl)
  {
    hide NoteAll;
    BreakIs(pieces);
    assert "\r" == ['\r'];
  }

  /** The merged first line shows the header written first, and no other. */
  lemma {:induction false} MergedShows(front: string, rest: string, name: Field, file: string, limit: nat, f: Field)
    requires front == Name(name) + rest && '\n' !in front && |front + file| <= limit && limit > 0 && front != ""
    ensures var l := Split(file, limit);
            Found(Rescan(front + file, limit), f) <==> f == name || Present(if l == [] then [] else l[1..], f)
  {
    hide NoteAll, Name, Pattern, HasPrefix, IsBlank, Present, Found, Split, Concat;
    SplitMerged(front, file, limit);
    var l := Split(file, limit);
    var first := if l == [] then front else front + l[0];
    var later := if l == [] then [] else l[1..];
    assert Split(front + file, limit) == [first] + later;
    FoundExactly([first] + later, 0, f);
    PresentCons(first, later, f);
    var more := if l == [] then rest else rest + l[0];
    assert first == Name(name) + more;
    OwnPrefix(name, more, f);
  }

  /** Without a proper line break, and with something to insert, the completed file shows all
      headers if and only if all but the first that was missing stand behind the first line. */
  lemma {:induction false} ImproperBreak(s: Spool, pieces: seq<string>, g: Generated, sender: Option<string>, limit: nat)
    requires Reads(s, pieces) && !HasAll(s) && !Breaks(s) && limit > 0
    requires '\n' !in g.id && '\n' !in g.date && '\n' !in Shown(sender)
    requires |Completed(s, g, sender)| <= limit
    ensures HasAll(Rescan(Completed(s, g, sender), limit)) <==> FoundLaterOn(s, limit)
  {
    NoFeedInBreak(s, pieces);
    LacksLineFeed(s, g, sender);
    var rest := FrontStarts(s, g, sender);
    var name := FirstMissing(s);
    NameShape(name);
    hide NoteAll, Name, NewLines, Split, Concat, Present, Found, Shown, FirstMissing;
    var front := Concat(NewLines(s, g, sender));
    var u := Rescan(front + s.stored, limit);
    AllFound(u);
    var l := Split(s.stored, limit);
    var later := if l == [] then [] else l[1..];
    forall f: Field
      ensures Found(u, f) <==> f == name || Present(later, f)
    {
      MergedShows(front, rest, name, s.stored, limit, f);
    }
  }

  // ---------------------------------------------------------------- main results

  /** The whole condition. */
  ghost predicate Completes(s: Spool, limit: nat)
    requires limit > 0
  {
    if HasAll(s) || Breaks(s) then KeepsFound(s, limit) else FoundLaterOn(s, limit)
  }

  lemma {:induction false} FrontFits(s: Spool, g: Generated, sender: Option<string>)
    ensures forall i :: 0 <= i < |Front(s, g, sender)| ==> |Front(s, g, sender)[i]| <= |Completed(s, g, sender)|
  {
    CompletedIs(s, g, sender);
    var front := Front(s, g, sender);
    hide Front, Completed;
    forall i | 0 <= i < |front|
      ensures |front[i]| <= |Concat(front)|
    {
      PartFits(front, i);
    }
  }

  /** Whatever arrived, and however long its lines: the completed file, read by whole lines,
      shows all four headers exactly if this condition on the spool and its text holds. */
  lemma {:induction false} CompletedExactly(input: string, fails: bool, size0: nat, g: Generated, sender: Option<string>, limit: nat)
    requires '\n' !in g.id && '\n' !in g.date && '\n' !in Shown(sender)
    requires limit > 0 && |Completed(Receive(input, fails, Start(size0)).spool, g, sender)| <= limit
    ensures var s := Receive(input, fails, Start(size0)).spool;
            HasAll(Rescan(Completed(s, g, sender), limit)) <==> Completes(s, limit)
  {
    hide Receive, Noted, Reads, Completed, Front, Breaks, HasAll, KeepsFound, FoundLaterOn, Rescan, Shown;
    var s := Receive(input, fails, Start(size0)).spool;
    ReceivedReads(input, fails, size0);
    FrontFits(s, g, sender);
    if HasAll(s) || Breaks(s) {
      ProperBreak(s, Noted(input, fails), g, sender, limit);
    } else {
      ImproperBreak(s, Noted(input, fails), g, sender, limit);
    }
  }

  lemma {:induction false} LongerFront(s: Spool, g: Generated, sender: Option<string>)
    requires !HasAll(s)
    ensures |Concat(NewLines(s, g, sender))| > 0
  {
    var rest := FrontStarts(s, g, sender);
    NameShape(FirstMissing(s));
  }

  /** For a reader of any buffer size: the completed file ends in the spooled text, a proper
      line break brings back exactly the headers that were found, and a second completion
      leaves the file alone exactly if all four are found. */
  lemma {:induction false} CompletionIsIdempotent(
    input: string, fails: bool, size0: nat, g: Generated, sender: Option<string>,
    limit: nat, g': Generated, sender': Option<string>)
    requires '\n' !in g.id && '\n' !in g.date && '\n' !in Shown(sender) && limit > 0
    ensures var s := Receive(input, fails, Start(size0)).spool;
            var file := Completed(s, g, sender);
            var again := Rescan(file, limit);
            (exists front :: file == front + s.stored) && again.stored == file &&
            (Completed(again, g', sender') == file <==> HasAll(again)) &&
            ((HasAll(s) || Breaks(s)) && (forall i :: 0 <= i < |Front(s, g, sender)| ==> |Front(s, g, sender)[i]| <= limit) ==>
               (HasAll(again) <==> KeepsFound(s, limit)))
  {
    var s := Receive(input, fails, Start(size0)).spool;
    var file := Completed(s, g, sender);
    var again := Rescan(file, limit);
    ReceivedReads(input, fails, size0);
    CompletedIs(s, g, sender);
    SplitKeeps(file, limit);
    NoteAllStores(Start(0), Split(file, limit));
    assert "" + file == file;
    if !HasAll(again) {
      LongerFront(again, g', sender');
    }
    hide Receive, Noted, Reads, Front, Breaks, KeepsFound, NoteAll, Split, Concat, NewLines, Shown;
    if (HasAll(s) || Breaks(s)) && forall i :: 0 <= i < |Front(s, g, sender)| ==> |Front(s, g, sender)[i]| <= limit {
      ProperBreak(s, Noted(input, fails), g, sender, limit);
    }
  }

  // ---------------------------------------------------------------- from wire to queue file

  /** A stuffed message of lines of any length: it ends the completed file, unchanged exactly
      if its lines are safe and free of NULs, and the file shows all headers exactly under the condition above. */
  lemma {:induction false} WireToQueueFile(
    lines: seq<string>, rest: string, fails: bool, size0: nat, g: Generated, sender: Option<string>, limit: nat)
    requires AreLines(lines)
    requires '\n' !in g.id && '\n' !in g.date && '\n' !in Shown(sender) && limit > 0
    ensures var r := Receive(Concat(StuffAll(lines)) + ".\r\n" + rest, fails, Start(size0));
            var file := Completed(r.spool, g, sender);
            (exists front :: file == front + r.spool.stored) &&
            (r.spool.stored == Concat(lines) <==> SafeLines(lines) && NulFree(lines)) &&
            (SafeLines(lines) ==> r.terminated && r.rest == rest) &&
            (|file| <= limit ==> (HasAll(Rescan(file, limit)) <==> Completes(r.spool, limit)))
  {
    hide Receive, Concat, StuffAll, SafeLines, NulFree, Completed, Completes, Shown, Front;
    var input := Concat(StuffAll(lines)) + ".\r\n" + rest;
    var s := Receive(input, fails, Start(size0)).spool;
    TransparentIff(lines, rest, fails, size0);
    CompletedIs(s, g, sender);
    if |Completed(s, g, sender)| <= limit {
      CompletedExactly(input, fails, size0, g, sender, limit);
    }
  }

  lemma {:induction false} ShortLinesReads(lines: seq<string>, rest: string, fails: bool, size0: nat) returns (s: Spool)
    requires AreLines(lines)
    requires forall i :: 0 <= i < |lines| ==> '\0' !in lines[i] && |Stuff(lines[i])| < MAXLINE
    ensures s == Receive(Concat(StuffAll(lines)) + ".\r\n" + rest, fails, Start(size0)).spool && Reads(s, lines)
  {
    hide Receive, Noted, Concat, StuffAll, Stuff, IsLine, NoteAll;
    var input := Concat(StuffAll(lines)) + ".\r\n" + rest;
    s := Receive(input, fails, Start(size0)).spool;
    ReceivedReads(input, fails, size0);
    LinesAreNoted(lines, rest, fails);
  }

  /** Short lines come back as they were noted. */
  lemma {:induction false} ShortLinesKept(s: Spool, lines: seq<string>, limit: nat)
    requires Reads(s, lines) && AreLines(lines) && PIECE <= limit
    requires forall i :: 0 <= i < |lines| ==> |Stuff(lines[i])| < MAXLINE
    ensures KeepsFound(s, limit) && Split(s.stored, limit) == lines
  {
    ReadsStored(s, lines);
    forall i | 0 <= i < |lines|
      ensures |lines[i]| <= limit
    {
      assert |Stuff(lines[i])| < MAXLINE;
    }
    hide NoteAll, Concat, Stuff, IsLine, Split;
    SplitFront(lines, "", limit);
    SplitStep("", limit);
    assert Concat(lines) + "" == Concat(lines) && lines + [] == lines;
  }

  lemma {:induction false} NothingSpooled(s: Spool, limit: nat)
    requires Reads(s, []) && limit > 0
    ensures !HasAll(s) && !Breaks(s) && !FoundLaterOn(s, limit)
  {
    assert NoteAll(Start(0), []) == Start(0);
    SplitStep("", limit);
    hide Split;
    assert FirstMissing(s) == MessageId;
    assert !Present([], To);
  }

  /** For a message whose lines fit the buffer only an empty one can fail. */
  lemma {:induction false} ShortLinesComplete(
    lines: seq<string>, rest: string, fails: bool, size0: nat, g: Generated, sender: Option<string>, limit: nat)
    requires AreLines(lines)
    requires forall i :: 0 <= i < |lines| ==> '\0' !in lines[i] && |Stuff(lines[i])| <= 1023
    requires '\n' !in g.id && '\n' !in g.date && '\n' !in Shown(sender) && PIECE <= limit
    ensures var s := Receive(Concat(StuffAll(lines)) + ".\r\n" + rest, fails, Start(size0)).spool;
            var file := Completed(s, g, sender);
            s.stored == Concat(lines) &&
            (|file| <= limit ==> (HasAll(Rescan(file, limit)) <==> lines != [])) &&
            (lines != [] && (forall i :: 0 <= i < |Front(s, g, sender)| ==> |Front(s, g, sender)[i]| <= limit) ==>
               HasAll(Rescan(file, limit)))
  {
    var s := ShortLinesReads(lines, rest, fails, size0);
    ReadsStored(s, lines);
    ShortLinesKept(s, lines, limit);
    FrontFits(s, g, sender);
    if lines == [] {
      NothingSpooled(s, limit);
    } else {
      BreakOfLines(lines, 0);
    }
    hide Receive, NoteAll, Concat, Stuff, IsLine, Split, KeepsFound, FoundLaterOn, Completed, Front, Rescan, IsBreak, Shown;
    if lines == [] {
      if |Completed(s, g, sender)| <= limit {
        ImproperBreak(s, lines, g, sender, limit);
      }
    } else if forall i :: 0 <= i < |Front(s, g, sender)| ==> |Front(s, g, sender)[i]| <= limit {
      ProperBreak(s, lines, g, sender, limit);
    }
  }

  // ---------------------------------------------------------------- messages that are spoiled

  /** What arrives when a line and the terminator are sent. */
  function Sent(l: string, rest: string): string {
    l + (".\r\n" + rest)
  }

  /** A line that is one character longer than the buffer, or more, and ends in a short piece. */
  lemma {:induction false} TwoPieces(l: string, rest: string, fails: bool)
    requires IsLine(l) && '\0' !in l && l[0] != '.' && PIECE < |l| && |l| - PIECE < PIECE && l[PIECE] != '.'
    ensures Noted(Sent(l, rest), fails) == [l[..PIECE], l[PIECE..]]
  {
    hide Noted, NextLine, Terminates, Unstuffed, IsLine, Stuff;
    var head, tail := l[..PIECE], l[PIECE..];
    PieceShape(l, ".\r\n" + rest);
    PieceIsNoted(l, ".\r\n" + rest, fails);
    UnstuffedForms(head);
    NotStuffed(tail);
    LineIsNoted(tail, ".\r\n" + rest, fails);
    TerminatorIsNoted(rest, fails);
  }

  lemma {:induction false} NotStuffed(l: string)
    requires l != "" && l[0] != '.'
    ensures Stuff(l) == l
  {
  }

  lemma {:induction false} TwoNotes(a: string, b: string)
    ensures NoteAll(Start(0), [a, b]) == Note(Note(Start(0), a, |Stuff(a)|), b, |Stuff(b)|)
    ensures Concat([a, b]) == a + b
  {
    hide Note, Stuff;
    assert [a, b][1..] == [b] && [b][1..] == [];
    var s := Note(Start(0), a, |Stuff(a)|);
    assert NoteAll(s, [b]) == NoteAll(Note(s, b, |Stuff(b)|), []);
    assert Concat([b]) == b + Concat([]);
  }

  /** A whole line is all there is to be found. */
  lemma {:induction false} OneLine(l: string, limit: nat)
    requires IsLine(l) && |l| <= limit
    ensures Split(l, limit) == [l]
  {
    hide IsLine, Split;
    LineNotEmpty(l);
    SplitStep("", limit);
    assert Concat([l]) == l + Concat([]) == l;
    assert l + "" == l;
    SplitFront([l], "", limit);
    assert [l] + [] == [l];
  }

  lemma {:induction false} StraddlingSpool(s: Spool, body: string)
    requires |body| > 3 && '\r' !in body && '\n' !in body && Reads(s, [body + "\r", "\n"])
    ensures s.stored == body + "\r\n" && s.nl == Some("\r") && !(s.mid && s.to)
  {
    hide HasPrefix, LineBreak, IsBlank, Stuff;
    var head := body + "\r";
    TwoNotes(head, "\n");
    assert head + "\n" == body + "\r\n";
    assert head[|body|] == '\r' && '\n' !in head;
    LineBreakIs(head);
    NotBoth(head);
    NotBoth("\n");
    PrefixAt("\n", "To:");
    PrefixAt("\n", "Message-ID:");
  }

  lemma {:induction false} NotBoth(l: string)
    ensures !(HasPrefix(l, "To:") && HasPrefix(l, "Message-ID:"))
  {
    PrefixAt(l, "To:");
    PrefixAt(l, "Message-ID:");
    assert "To:"[0] == 'T' && "Message-ID:"[0] == 'M';
  }

  /** A first line whose CRLF straddles the end of the buffer: the message arrives unchanged,
      but the line break is taken to be a bare carriage return, and headers are missing. */
  lemma {:induction false} StraddlingBreak(body: string, rest: string, fails: bool, size0: nat, g: Generated, sender: Option<string>, limit: nat)
    requires |body| == 1022 && body[0] != '.' && '\r' !in body && '\n' !in body && '\0' !in body
    requires '\n' !in g.id && '\n' !in g.date && '\n' !in Shown(sender)
    ensures var s := Receive(Sent(body + "\r\n", rest), fails, Start(size0)).spool;
            var file := Completed(s, g, sender);
            s.stored == body + "\r\n" && s.nl == Some("\r") && (0 < |file| <= limit ==> !HasAll(Rescan(file, limit)))
  {
    var l := body + "\r\n";
    var input := Sent(l, rest);
    var s := Receive(input, fails, Start(size0)).spool;
    assert l[..PIECE] == body + "\r" && l[PIECE..] == "\n" && l[..|l| - 1] == body + "\r";
    hide Receive, Noted, NoteAll, Sent, Concat, Completed, Rescan, Shown;
    TwoPieces(l, rest, fails);
    ReceivedReads(input, fails, size0);
    StraddlingSpool(s, body);
    var file := Completed(s, g, sender);
    if 0 < |file| <= limit {
      CompletedExactly(input, fails, size0, g, sender, limit);
      StoredFits(s, g, sender);
      OneLine(l, limit);
      OneLineFails(s, limit);
    }
  }

  lemma {:induction false} StoredFits(s: Spool, g: Generated, sender: Option<string>)
    ensures |s.stored| <= |Completed(s, g, sender)|
  {
  }

  lemma {:induction false} OneLineFails(s: Spool, limit: nat)
    requires limit > 0 && |Split(s.stored, limit)| == 1 && s.nl == Some("\r") && !(s.mid && s.to)
    ensures !Completes(s, limit)
  {
    hide Split;
    assert "\r" != "\n" && "\r" != "\r\n";
    var f := if s.mid then MessageId else To;
    assert f != FirstMissing(s);
    assert !Present(Split(s.stored, limit)[1..], f);
  }

  /** A header name at the start of a later piece of a long line: it is taken for a header,
      none is inserted, and none is there. */
  lemma {:induction false} HeaderInsideLine(
    body: string, value: string, rest: string, fails: bool, size0: nat, g: Generated, sender: Option<string>, limit: nat)
    requires |body| == 1023 && body[0] != '.' && '\r' !in body && '\n' !in body && '\0' !in body && !HasPrefix(body, "To:")
    requires |value| < PIECE - 5 && '\n' !in value && '\0' !in value
    requires '\n' !in g.id && '\n' !in g.date && '\n' !in Shown(sender)
    ensures var l := body + ("To:" + value + "\r\n");
            var s := Receive(Sent(l, rest), fails, Start(size0)).spool;
            var file := Completed(s, g, sender);
            s.stored == l && s.to && (0 < |file| <= limit ==> !HasAll(Rescan(file, limit)))
  {
    var tail := "To:" + value + "\r\n";
    var l := body + tail;
    var input := Sent(l, rest);
    var s := Receive(input, fails, Start(size0)).spool;
    hide Receive, Noted, NoteAll, Sent, Concat, Completed, Rescan, Shown, HasPrefix;
    HiddenLine(body, value);
    TwoPieces(l, rest, fails);
    ReceivedReads(input, fails, size0);
    HiddenSpool(s, body, value);
    var file := Completed(s, g, sender);
    if 0 < |file| <= limit {
      CompletedExactly(input, fails, size0, g, sender, limit);
      StoredFits(s, g, sender);
      OneLine(l, limit);
      StillNotTo(body, value + "\r\n");
      assert "To:" + (value + "\r\n") == tail;
      HiddenFails(s, l, limit);
    }
  }

  lemma {:induction false} HiddenLine(body: string, value: string)
    requires |body| == PIECE && '\n' !in body && '\0' !in body && '\n' !in value && '\0' !in value
    ensures var tail := "To:" + value + "\r\n";
            var l := body + tail;
            IsLine(l) && '\0' !in l && l[..PIECE] == body && l[PIECE..] == tail && tail[0] == 'T'
  {
    var l := body + ("To:" + value + "\r\n");
    assert l[..|l| - 1] == body + ("To:" + value + "\r");
  }

  lemma {:induction false} HiddenSpool(s: Spool, body: string, value: string)
    requires Reads(s, [body, "To:" + value + "\r\n"]) && |body| > 0 && '\r' !in body && '\n' !in body
    ensures s.to && s.stored == body + ("To:" + value + "\r\n") && !(s.mid && s.date)
  {
    hide HasPrefix, LineBreak, Stuff;
    var tail := "To:" + value + "\r\n";
    TwoNotes(body, tail);
    PrefixAt(body, "\n");
    PrefixAt(body, "\r\n");
    PrefixAt(body, "\r");
    PrefixAt(body, "Message-ID:");
    PrefixAt(body, "Date:");
    PrefixAt(tail, "Message-ID:");
    PrefixAt(tail, "Date:");
    PrefixAt(tail, "To:");
    assert body[0] in body;
    assert "Message-ID:"[0] == 'M' && "Date:"[0] == 'D';
  }

  /** A line that starts with something else does not start with the header. */
  lemma {:induction false} StillNotTo(body: string, value: string)
    requires body != "" && !HasPrefix(body, "To:")
    ensures !HasPrefix(body + ("To:" + value), "To:")
  {
    PrefixAt(body, "To:");
    PrefixAt(body + ("To:" + value), "To:");
    if |body| < 3 {
      assert (body + ("To:" + value))[|body|] == 'T';
    }
  }

  lemma {:induction false} HiddenFails(s: Spool, line: string, limit: nat)
    requires limit > 0 && Split(s.stored, limit) == [line] && s.to && !(s.mid && s.date)
    requires !HasPrefix(line, "To:")
    ensures !Completes(s, limit)
  {
    hide Split, HasPrefix, NoteAll;
    FoundExactly([line], 0, To);
    assert Found(s, To);
    var f := if s.mid then MessageId else Date;
    assert f != FirstMissing(s) || !Present([], To);
    assert Split(s.stored, limit)[1..] == [];
    assert !Present([], MessageId) && !Present([], Date) && !Present([], To);
  }

  /** A line that is cut off at a NUL, and a line behind it. */
  lemma {:induction false} CutLineNoted(a: string, b: string, l: string, rest: string, fails: bool)
    requires a != "" && a[0] != '.' && '\r' !in a && '\n' !in a && '\0' !in a && '\n' !in b
    requires |a| + |b| + 2 < MAXLINE && IsLine(l) && '\0' !in l && l[0] != '.' && |l| < MAXLINE
    ensures Noted(Sent(a + "\0" + b + "\n" + l, rest), fails) == [a, l]
  {
    hide Noted, NextLine, Stuff, Terminates, Unstuffed;
    var line := a + "\0" + b + "\n";
    var more := l + (".\r\n" + rest);
    assert line[..|line| - 1] == a + "\0" + b;
    assert Sent(line + l, rest) == line + more;
    LineIsRead(line, more, fails, MAXLINE);
    assert line[..|a|] == a;
    CStrAt(line, |a|);
    hide CStr;
    NoFeedGoesOn(a);
    UnstuffedForms(a);
    LoopStep(line + more, fails, Start(0));
    NotStuffed(l);
    LineIsNoted(l, ".\r\n" + rest, fails);
    TerminatorIsNoted(rest, fails);
  }

  /** A NUL takes its line's end away, so that the next line is stored behind what is left of
      it: a header there is taken for one, none is inserted, and none is there. */
  lemma {:induction false} NulHidesHeader(
    a: string, b: string, value: string, rest: string, fails: bool, size0: nat, g: Generated, sender: Option<string>, limit: nat)
    requires a != "" && a[0] != '.' && '\r' !in a && '\n' !in a && '\0' !in a && !HasPrefix(a, "To:") && '\n' !in b
    requires |a| + |b| + 2 < MAXLINE && |value| < PIECE - 5 && '\n' !in value && '\0' !in value
    requires '\n' !in g.id && '\n' !in g.date && '\n' !in Shown(sender)
    ensures var l := "To:" + value + "\r\n";
            var s := Receive(Sent(a + "\0" + b + "\n" + l, rest), fails, Start(size0)).spool;
            var file := Completed(s, g, sender);
            s.stored == a + l && s.to && (0 < |file| <= limit ==> !HasAll(Rescan(file, limit)))
  {
    var l := "To:" + value + "\r\n";
    var input := Sent(a + "\0" + b + "\n" + l, rest);
    var s := Receive(input, fails, Start(size0)).spool;
    hide Receive, Noted, NoteAll, Sent, Concat, Completed, Completes, Rescan, Shown, HasPrefix, Split, IsLine;
    HeaderIsLine(a, value);
    NulSpool(a, b, value, rest, fails, size0);
    var file := Completed(s, g, sender);
    if 0 < |file| <= limit {
      CompletedExactly(input, fails, size0, g, sender, limit);
      StoredFits(s, g, sender);
      OneLine(a + l, limit);
      StillNotTo(a, value + "\r\n");
      assert "To:" + (value + "\r\n") == l;
      HiddenFails(s, a + l, limit);
    }
  }

  lemma {:induction false} NulSpool(a: string, b: string, value: string, rest: string, fails: bool, size0: nat)
    requires a != "" && a[0] != '.' && '\r' !in a && '\n' !in a && '\0' !in a && '\n' !in b
    requires |a| + |b| + 2 < MAXLINE && |value| < PIECE - 5 && '\n' !in value && '\0' !in value
    ensures var l := "To:" + value + "\r\n";
            var s := Receive(Sent(a + "\0" + b + "\n" + l, rest), fails, Start(size0)).spool;
            s.stored == a + l && s.to && !(s.mid && s.date)
  {
    hide Receive, Noted, NoteAll, Sent, Concat, HasPrefix, IsLine, Reads;
    var l := "To:" + value + "\r\n";
    HeaderIsLine(a, value);
    CutLineNoted(a, b, l, rest, fails);
    ReceivedReads(Sent(a + "\0" + b + "\n" + l, rest), fails, size0);
    HiddenSpool(Receive(Sent(a + "\0" + b + "\n" + l, rest), fails, Start(size0)).spool, a, value);
  }

  lemma {:induction false} HeaderIsLine(a: string, value: string)
    requires '\n' !in a && '\n' !in value && '\0' !in value
    ensures var l := "To:" + value + "\r\n";
            IsLine(l) && IsLine(a + l) && '\0' !in l && l[0] == 'T' && |l| == |value| + 5
  {
    var l := "To:" + value + "\r\n";
    assert l[..|l| - 1] == "To:" + value + "\r";
    assert (a + l)[..|a + l| - 1] == a + ("To:" + value + "\r");
  }
}
