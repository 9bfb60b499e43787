/** The DATA phase: reading a message with dot removal and noting which headers it has. */
module DataReader {
  import opened Text
  import opened LineReader
  import opened Options

  // ---------------------------------------------------------------- dots

  /** The first dot taken out, wherever it stands. */
  function Unstuff(s: string): (t: string)
    ensures |t| <= |s| <= |t| + 1
    ensures forall c :: c in t ==> c in s
  {
    if s == "" then "" else if s[0] == '.' then s[1..] else [s[0]] + Unstuff(s[1..])
  }

  lemma {:induction false} UnstuffAt(s: string, d: nat)
    requires d < |s| && s[d] == '.' && '.' !in s[..d]
    ensures Unstuff(s) == s[..d] + s[d + 1..]
  {
    if d > 0 {
      assert s[..d][0] == s[0];
      assert s[1..][..d - 1] == s[..d][1..];
      UnstuffAt(s[1..], d - 1);
      assert s[1..][d..] == s[d + 1..];
    }
  }

  lemma {:induction false} UnstuffAbsent(s: string)
    requires '.' !in s
    ensures Unstuff(s) == s
  {
    if s != "" {
      UnstuffAbsent(s[1..]);
    }
  }

  /** The first i characters have been gone over: without a dot they stand where they stood,
      else one dot has been taken out. */
  ghost predicate Removed(done: string, s: string, i: nat, found: bool)
    requires i <= |s|
  {
    if found then |done| < i && done + s[i..] == Unstuff(s)
    else done == s[..i] && '.' !in done
  }

  lemma {:induction false} KeepOne(done: string, s: string, i: nat, found: bool)
    requires i < |s| && Removed(done, s, i, found) && (s[i] != '.' || found)
    ensures Removed(done + [s[i]], s, i + 1, found)
  {
    hide Unstuff;
    assert s[i..] == [s[i]] + s[i + 1..];
    assert done + s[i..] == (done + [s[i]]) + s[i + 1..];
  }

  lemma {:induction false} DropDot(done: string, s: string, i: nat)
    requires i < |s| && Removed(done, s, i, false) && s[i] == '.'
    ensures Removed(done, s, i + 1, true)
  {
    UnstuffAt(s, i);
  }

  lemma {:induction false} AllRemoved(done: string, s: string, found: bool)
    requires Removed(done, s, |s|, found)
    ensures done == Unstuff(s)
  {
    hide Unstuff;
    assert s[..|s|] == s && done + s[|s|..] == done;
    if !found {
      UnstuffAbsent(s);
    }
  }

  /** Removes the first dot of the C string in place. */
  method Stuffing(chain: array<char>, ghost n: nat)
    requires n < chain.Length && chain[n] == '\0'
    modifies chain
    ensures CStr(chain[..]) == Unstuff(CStr(old(chain[..])))
    ensures exists k :: 0 <= k <= n && chain[k] == '\0'
  {
    hide CStr, Unstuff, Removed;
    ghost var before := chain[..];
    ghost var s := CStr(before);
    CStrBefore(before, n);
    assert forall k :: 0 <= k < |s| ==> before[k] == s[k] && s[k] in s;
    NothingRemoved(s);
    var i, j, found := 0, 0, false;
    while chain[i] != '\0'
      invariant 0 <= j <= i <= |s|
      invariant forall k :: i <= k < chain.Length ==> chain[k] == before[k]
      invariant Removed(chain[..j], s, i, found)
      decreases |s| - i
    {
      assert chain[i] == s[i];
      if chain[i] != '.' || found {
        KeepOne(chain[..j], s, i, found);
        assert forall k :: 0 <= k < j ==> chain[..j][k] == chain[k];
        ghost var kept := chain[..j];
        chain[j] := chain[i];
        assert chain[..j] == kept;
        j := j + 1;
        assert chain[..j] == kept + [s[i]];
      } else {
        DropDot(chain[..j], s, i);
        found := true;
      }
      i := i + 1;
    }
    AllRemoved(chain[..j], s, found);
    ghost var kept := chain[..j];
    chain[j] := '\0';
    assert chain[..][..j] == kept;
    CStrAt(chain[..], j);
  }

  lemma {:induction false} NothingRemoved(s: string)
    ensures Removed("", s, 0, false)
  {
  }

  // ---------------------------------------------------------------- notes on a line

  /** What the reader remembers while it spools a message. */
  datatype Spool = Spool(
    mid: bool, to: bool, from: bool, date: bool, header: bool,
    inHeader: bool, nl: Option<string>, stored: string, size: nat)

  function Start(size: nat): Spool {
    Spool(false, false, false, false, false, true, None, "", size)
  }

  /** The first kind of line break the line contains. */
  function LineBreak(l: string): Option<string> {
    if exists i :: 0 <= i < |l| - 1 && l[i] == '\r' && l[i + 1] == '\n' then Some("\r\n")
    else if '\n' in l then Some("\n")
    else if '\r' in l then Some("\r")
    else None
  }

  predicate IsBlank(l: string) {
    HasPrefix(l, "\n") || HasPrefix(l, "\r\n") || HasPrefix(l, "\r")
  }

  /** A line is blank if it starts with a line feed or a carriage return. */
  lemma {:induction false} BlankIs(l: string)
    ensures IsBlank(l) <==> l != "" && (l[0] == '\n' || l[0] == '\r')
  {
    PrefixAt(l, "\n");
    PrefixAt(l, "\r\n");
    PrefixAt(l, "\r");
    if l != "" {
      LowerBreak(l[0]);
    }
  }

  lemma {:induction false} LowerBreak(c: char)
    ensures Lower(c) == '\n' <==> c == '\n'
    ensures Lower(c) == '\r' <==> c == '\r'
    ensures Lower(c) == '.' <==> c == '.'
    ensures Lower('\n') == '\n' && Lower('\r') == '\r' && Lower('.') == '.'
  {
  }

  /** The break of a line is that in which it ends. */
  lemma {:induction false} LineBreakOf(body: string)
    requires '\n' !in body
    ensures (body == "" || body[|body| - 1] != '\r') ==> LineBreak(body + "\n") == Some("\n")
    ensures LineBreak(body + "\r\n") == Some("\r\n")
    ensures '\r' in body ==> LineBreak(body) == Some("\r")
    ensures '\r' !in body ==> LineBreak(body) == None
  {
    assert forall i :: 0 <= i < |body| ==> body[i] in body;
    var l := body + "\r\n";
    assert l[|body|] == '\r' && l[|body| + 1] == '\n';
    var m := body + "\n";
    assert m[|body|] == '\n';
    assert forall i :: 0 <= i < |body| ==> m[i] == body[i];
  }

  /** The line as it is stored, with br the length reported for it as it arrived. */
  function Note(s: Spool, l: string, br: nat): Spool {
    Spool(s.mid || (s.inHeader && HasPrefix(l, "Message-ID:")),
          s.to || (s.inHeader && HasPrefix(l, "To:")),
          s.from || (s.inHeader && HasPrefix(l, "From:")),
          s.date || (s.inHeader && HasPrefix(l, "Date:")),
          s.header || ':' in l,
          s.inHeader && !IsBlank(l),
          if s.nl.None? then LineBreak(l) else s.nl,
          s.stored + l,
          s.size + br)
  }

  function Unstuffed(l: string): string {
    if HasPrefix(l, ".") then Unstuff(l) else l
  }

  predicate Terminates(l: string) {
    HasPrefix(l, ".\r\n") || HasPrefix(l, ".\n")
  }

  /** Result of the reading loop: the spool, the input left, and whether the terminator was
      seen (as opposed to the connection ending). */
  datatype Received = Received(spool: Spool, rest: string, terminated: bool)

  function Receive(input: string, fails: bool, s: Spool): Received
    decreases |input|
  {
    var o := NextLine(input, fails, MAXLINE);
    if o.ret <= 0 then Received(s, "", false)
    else
      var l := CStr(o.text);
      if Terminates(l) then Received(s, o.rest, true)
      else Receive(o.rest, fails, Note(s, Unstuffed(l), o.ret))
  }

  /** The reading loop over the connection. */
  method ReceiveData(reader: Reader, size0: nat) returns (s: Spool, terminated: bool)
    requires reader.Valid()
    modifies reader, reader.buf
    ensures reader.Valid()
    ensures var r := Receive(old(reader.Pending()), old(reader.Fails()), Start(size0));
            s == r.spool && terminated == r.terminated && (terminated ==> reader.Pending() == r.rest)
  {
    hide NextLine, Note, Unstuffed, Terminates, Unstuff, CStr, LineBreak, Reader.Pending, Reader.Valid, Reader.Fails;
    var buf := new char[MAXLINE];
    ghost var fails := reader.Fails();
    ghost var whole := Receive(reader.Pending(), fails, Start(size0));
    s := Start(size0);
    while true
      invariant reader.Valid() && reader.Fails() == fails && fresh(buf) && reader.buf != buf
      invariant Receive(reader.Pending(), fails, s) == whole
      decreases |reader.Pending()|
    {
      ghost var o := NextLine(reader.Pending(), fails, MAXLINE);
      var br := reader.ReadLine(buf, MAXLINE);
      if br <= 0 {
        return s, false;
      }
      var line := FromBuffer(buf, |o.text|);
      if HasPrefix(line, ".\r\n") || HasPrefix(line, ".\n") {
        assert Terminates(line) by { TerminatorForms(line); }
        return s, true;
      }
      assert !Terminates(line) by { TerminatorForms(line); }
      s := TakeLine(buf, |o.text|, s, br);
    }
  }

  /** The end of a message: a dot alone on its line, whether that ends in LF or in CRLF; what
      follows in the same piece does not matter. */
  lemma {:induction false} TerminatorIs(l: string)
    ensures Terminates(l) <==>
            (|l| >= 2 && l[0] == '.' && l[1] == '\n') || (|l| >= 3 && l[0] == '.' && l[1] == '\r' && l[2] == '\n')
  {
    PrefixAt(l, ".\r\n");
    PrefixAt(l, ".\n");
    forall i | 0 <= i < |l|
      ensures Lower(l[i]) == '.' <==> l[i] == '.'
      ensures Lower(l[i]) == '\n' <==> l[i] == '\n'
      ensures Lower(l[i]) == '\r' <==> l[i] == '\r'
    {
      LowerBreak(l[i]);
    }
  }

  lemma {:induction false} TerminatorForms(l: string)
    ensures Terminates(l) <==> HasPrefix(l, ".\r\n") || HasPrefix(l, ".\n")
  {
  }

  /** One turn of the loop body on the line in the buffer. */
  method TakeLine(buf: array<char>, ghost n: nat, s: Spool, br: nat) returns (t: Spool)
    requires n < buf.Length && buf[n] == '\0'
    modifies buf
    ensures t == Note(s, Unstuffed(CStr(old(buf[..n]))), br)
  {
    hide Note, Unstuffed;
    var line := RemoveDot(buf, n);
    t := TakeNotes(s, line, br);
  }

  method RemoveDot(buf: array<char>, ghost n: nat) returns (line: string)
    requires n < buf.Length && buf[n] == '\0'
    modifies buf
    ensures line == Unstuffed(CStr(old(buf[..n])))
  {
    hide Unstuff, HasPrefix, CStr;
    line := FromBuffer(buf, n);
    if HasPrefix(line, ".") {
      Stuffing(buf, n);
      ghost var k :| 0 <= k <= n && buf[k] == '\0';
      line := FromBuffer(buf, k);
    }
  }

  method TakeNotes(s: Spool, line: string, br: nat) returns (t: Spool)
    ensures t == Note(s, line, br)
  {
    hide HasPrefix, LineBreak;
    var Spool(foundMid, foundTo, foundFrom, foundDate, foundHeader, inHeader, nl, stored, size) := s;
    if !foundMid && inHeader {
      if HasPrefix(line, "Message-ID:") { foundMid := true; }
    }
    if HasPrefix(line, "Date:") && inHeader { foundDate := true; }
    if HasPrefix(line, "To:") && inHeader { foundTo := true; }
    if HasPrefix(line, "From:") && inHeader { foundFrom := true; }
    if nl.None? { nl := LineBreak(line); }
    if HasPrefix(line, "\n") || HasPrefix(line, "\r\n") || HasPrefix(line, "\r") { inHeader := false; }
    if !foundHeader {
      if ':' in line { foundHeader := true; }
    }
    stored, size := stored + line, size + br;
    t := Spool(foundMid, foundTo, foundFrom, foundDate, foundHeader, inHeader, nl, stored, size);
  }

  // ---------------------------------------------------------------- transparency

  /** Dot-stuffing as a sender does it (section 4.5.2 of RFC 5321). */
  function Stuff(l: string): string {
    if l != "" && l[0] == '.' then "." + l else l
  }

  function StuffAll(lines: seq<string>): (r: seq<string>)
    ensures |r| == |lines| && forall i :: 0 <= i < |r| ==> r[i] == Stuff(lines[i])
  {
    if lines == [] then [] else [Stuff(lines[0])] + StuffAll(lines[1..])
  }

  lemma {:induction false} StuffRoundTrip(l: string)
    requires IsLine(l) && '\0' !in l
    ensures IsLine(Stuff(l)) && '\0' !in Stuff(l) && CStr(Stuff(l)) == Stuff(l)
    ensures !Terminates(Stuff(l)) && Unstuffed(Stuff(l)) == l
  {
    CStrWhole(Stuff(l));
    PrefixAt(Stuff(l), ".\r\n");
    PrefixAt(Stuff(l), ".\n");
    PrefixAt(Stuff(l), ".");
  }

  /** The spool after whole lines, each reported with its length on the wire. */
  function NoteAll(s: Spool, lines: seq<string>): Spool
    decreases |lines|
  {
    if lines == [] then s else NoteAll(Note(s, lines[0], |Stuff(lines[0])|), lines[1..])
  }

  lemma {:induction false} NoteAllStores(s: Spool, lines: seq<string>)
    ensures NoteAll(s, lines).stored == s.stored + Concat(lines)
    ensures NoteAll(s, lines).size == s.size + |Concat(StuffAll(lines))|
    decreases |lines|
  {
    hide HasPrefix, LineBreak, Stuff;
    if lines == [] {
      assert s.stored + Concat([]) == s.stored;
    } else {
      NoteAllStores(Note(s, lines[0], |Stuff(lines[0])|), lines[1..]);
      assert (s.stored + lines[0]) + Concat(lines[1..]) == s.stored + Concat(lines);
      assert StuffAll(lines)[1..] == StuffAll(lines[1..]);
    }
  }

  /** How many lines a sender had to stuff. */
  function Dots(lines: seq<string>): nat {
    if lines == [] then 0 else (if Stuff(lines[0]) == lines[0] then 0 else 1) + Dots(lines[1..])
  }

  lemma {:induction false} StuffedSize(lines: seq<string>)
    ensures |Concat(StuffAll(lines))| == |Concat(lines)| + Dots(lines)
  {
    if lines != [] {
      StuffedSize(lines[1..]);
      assert StuffAll(lines)[1..] == StuffAll(lines[1..]);
    }
  }

  lemma {:induction false} TerminatorIsRead(rest: string, fails: bool, s: Spool)
    ensures Receive(".\r\n" + rest, fails, s) == Received(s, rest, true)
  {
    LineIsRead(".\r\n", rest, fails, MAXLINE);
    CStrWhole(".\r\n");
    PrefixAt(".\r\n", ".\r\n");
  }

  /** One stuffed line that fits the buffer. */
  lemma {:induction false} LineIsReceived(l: string, more: string, fails: bool, s: Spool)
    requires IsLine(l) && '\0' !in l && |Stuff(l)| < MAXLINE
    ensures Receive(Stuff(l) + more, fails, s) == Receive(more, fails, Note(s, l, |Stuff(l)|))
  {
    hide NextLine, Note, Unstuffed, Terminates;
    StuffRoundTrip(l);
    LineIsRead(Stuff(l), more, fails, MAXLINE);
  }

  lemma {:induction false} LinesAreReceived(lines: seq<string>, more: string, fails: bool, s: Spool)
    requires AreLines(lines)
    requires forall i :: 0 <= i < |lines| ==> '\0' !in lines[i] && |Stuff(lines[i])| < MAXLINE
    ensures Receive(Concat(StuffAll(lines)) + more, fails, s) == Receive(more, fails, NoteAll(s, lines))
    decreases |lines|
  {
    hide Receive, Note;
    if lines == [] {
      assert Concat(StuffAll(lines)) + more == more;
    } else {
      var wire := Concat(StuffAll(lines[1..]));
      assert StuffAll(lines)[1..] == StuffAll(lines[1..]);
      assert Concat(StuffAll(lines)) + more == Stuff(lines[0]) + (wire + more);
      LineIsReceived(lines[0], wire + more, fails, s);
      LinesAreReceived(lines[1..], more, fails, Note(s, lines[0], |Stuff(lines[0])|));
    }
  }

  /** DATA transparency: a stuffed body whose lines fit the buffer is stored as it was, the
      reader stops right behind the terminator, and the size counts the removed dots too. */
  lemma {:induction false} Transparency(lines: seq<string>, rest: string, fails: bool, size0: nat)
    requires AreLines(lines)
    requires forall i :: 0 <= i < |lines| ==> '\0' !in lines[i] && |Stuff(lines[i])| <= 1023
    ensures var r := Receive(Concat(StuffAll(lines)) + ".\r\n" + rest, fails, Start(size0));
            r == Received(NoteAll(Start(size0), lines), rest, true) &&
            r.spool.stored == Concat(lines) &&
            r.spool.size == size0 + |Concat(lines)| + Dots(lines)
  {
    hide Receive, Note, NoteAll;
    var wire := Concat(StuffAll(lines));
    assert wire + ".\r\n" + rest == wire + (".\r\n" + rest);
    LinesAreReceived(lines, ".\r\n" + rest, fails, Start(size0));
    TerminatorIsRead(rest, fails, NoteAll(Start(size0), lines));
    NoteAllStores(Start(size0), lines);
    StuffedSize(lines);
    assert Start(size0).stored + Concat(lines) == Concat(lines);
  }

  // ---------------------------------------------------------------- what is noted

  /** The pieces that are noted, in the form in which they are stored. */
  function Noted(input: string, fails: bool): seq<string>
    decreases |input|
  {
    var o := NextLine(input, fails, MAXLINE);
    if o.ret <= 0 || Terminates(CStr(o.text)) then []
    else [Unstuffed(CStr(o.text))] + Noted(o.rest, fails)
  }

  /** The bytes that are counted for them. */
  function Counted(input: string, fails: bool): nat
    decreases |input|
  {
    var o := NextLine(input, fails, MAXLINE);
    if o.ret <= 0 || Terminates(CStr(o.text)) then 0 else o.ret + Counted(o.rest, fails)
  }

  /** The size has no influence on what else is noted. */
  lemma {:induction false} SizeApart(s: Spool, t: Spool, lines: seq<string>)
    requires t == s.(size := t.size)
    ensures NoteAll(t, lines) == NoteAll(s, lines).(size := NoteAll(t, lines).size)
    decreases |lines|
  {
    hide HasPrefix, LineBreak, Stuff, IsBlank;
    if lines != [] {
      var br := |Stuff(lines[0])|;
      SizeApart(Note(s, lines[0], br), Note(t, lines[0], br), lines[1..]);
    }
  }

  /** The loop notes these pieces, for any input, and adds their bytes to the size. */
  lemma {:induction false} ReceiveNotes(input: string, fails: bool, s: Spool)
    ensures var t := Receive(input, fails, s).spool;
            t == NoteAll(s, Noted(input, fails)).(size := t.size) && t.size == s.size + Counted(input, fails)
    decreases |input|
  {
    assert MAXLINE >= 2;
    hide *;
    var o := NextLine(input, fails, MAXLINE);
    var l := Unstuffed(CStr(o.text));
    LoopStep(input, fails, s);
    NoteNone(s);
    if o.ret > 0 && !Terminates(CStr(o.text)) {
      Shorter(input, fails);
      NoteCons(s, l, Noted(o.rest, fails), o.ret);
      ReceiveNotes(o.rest, fails, Note(s, l, o.ret));
      NoteSizes(s, l, o.ret);
    }
  }

  lemma {:induction false} NoteNone(s: Spool)
    ensures NoteAll(s, []) == s
  {
  }

  lemma {:induction false} Shorter(input: string, fails: bool)
    ensures var o := NextLine(input, fails, MAXLINE); o.ret > 0 ==> |o.rest| < |input|
  {
  }

  lemma {:induction false} NoteSizes(s: Spool, l: string, br: nat)
    ensures Note(s, l, br).size == s.size + br
  {
  }

  lemma {:induction false} NoteCons(s: Spool, l: string, lines: seq<string>, br: nat)
    ensures var t := NoteAll(s, [l] + lines);
            t == NoteAll(Note(s, l, br), lines).(size := t.size)
  {
    hide HasPrefix, LineBreak, Stuff, IsBlank;
    assert ([l] + lines)[1..] == lines;
    SizeApart(Note(s, l, br), Note(s, l, |Stuff(l)|), lines);
  }

  lemma {:induction false} LoopStep(input: string, fails: bool, s: Spool)
    ensures var o := NextLine(input, fails, MAXLINE);
            var l := Unstuffed(CStr(o.text));
            if o.ret <= 0 || Terminates(CStr(o.text)) then
              Receive(input, fails, s).spool == s && Noted(input, fails) == [] && Counted(input, fails) == 0
            else
              Receive(input, fails, s) == Receive(o.rest, fails, Note(s, l, o.ret)) &&
              Noted(input, fails) == [l] + Noted(o.rest, fails) && Counted(input, fails) == o.ret + Counted(o.rest, fails)
  {
    hide NextLine, Unstuffed, Terminates, CStr, Note;
  }

  lemma {:induction false} TerminatorIsNoted(rest: string, fails: bool)
    ensures Noted(".\r\n" + rest, fails) == []
  {
    LineIsRead(".\r\n", rest, fails, MAXLINE);
    CStrWhole(".\r\n");
    PrefixAt(".\r\n", ".\r\n");
  }

  lemma {:induction false} LineIsNoted(l: string, more: string, fails: bool)
    requires IsLine(l) && '\0' !in l && |Stuff(l)| < MAXLINE
    ensures Noted(Stuff(l) + more, fails) == [l] + Noted(more, fails)
  {
    hide NextLine, Unstuffed, Terminates;
    StuffRoundTrip(l);
    LineIsRead(Stuff(l), more, fails, MAXLINE);
  }

  /** Lines that fit the buffer are noted as they are. */
  lemma {:induction false} LinesAreNoted(lines: seq<string>, rest: string, fails: bool)
    requires AreLines(lines)
    requires forall i :: 0 <= i < |lines| ==> '\0' !in lines[i] && |Stuff(lines[i])| < MAXLINE
    ensures Noted(Concat(StuffAll(lines)) + ".\r\n" + rest, fails) == lines
    decreases |lines|
  {
    hide Noted, IsLine, StuffAll, Stuff, Concat;
    WireStep(lines);
    var end := ".\r\n";
    if lines == [] {
      assert Concat(StuffAll(lines)) + end + rest == end + rest;
      TerminatorIsNoted(rest, fails);
    } else {
      var wire := Concat(StuffAll(lines[1..]));
      LinesAreNoted(lines[1..], rest, fails);
      assert Concat(StuffAll(lines)) + end + rest == Stuff(lines[0]) + (wire + end + rest);
      LineIsNoted(lines[0], wire + end + rest, fails);
      assert lines == [lines[0]] + lines[1..];
    }
  }

  lemma {:induction false} WireStep(lines: seq<string>)
    ensures Concat(StuffAll(lines)) == if lines == [] then "" else Stuff(lines[0]) + Concat(StuffAll(lines[1..]))
  {
    hide Stuff;
    if lines != [] {
      assert StuffAll(lines)[1..] == StuffAll(lines[1..]);
    }
  }

  // ---------------------------------------------------------------- end of file

  lemma {:induction false} EvenlyComplete(input: string)
    requires input != "" && EndsEvenly(input)
    ensures Complete(input, MAXLINE) && EndsEvenly(input[Cut(input, MAXLINE - 1)..])
  {
    LineFeedEndsEvenly(input, MAXLINE);
  }

  lemma {:induction false} ReceiveStep(input: string, fails: bool, s: Spool)
    ensures var o := NextLine(input, fails, MAXLINE);
            var l := CStr(o.text);
            Receive(input, fails, s) ==
            if o.ret <= 0 then Received(s, "", false)
            else if Terminates(l) then Received(s, o.rest, true)
            else Receive(o.rest, fails, Note(s, Unstuffed(l), o.ret))
  {
    hide NextLine, Unstuffed, Terminates, CStr, Note;
  }

  predicate EndsEvenly(input: string) {
    input == "" || input[|input| - 1] == '\n'
  }

  lemma {:induction false} EndsMessage(input: string, end: string, rest: string, fails: bool, fails': bool, s: Spool)
    requires EndsEvenly(input) && end == ".\r\n" + rest && !Receive(input, fails, s).terminated
    ensures Receive(input + end, fails', s) == Received(Receive(input, fails, s).spool, rest, true)
    decreases |input|
  {
    assert MAXLINE >= 2;
    hide *;
    if input == "" {
      assert input + end == end;
      NothingReceived(fails, s);
      TerminatorIsRead(rest, fails', s);
    } else {
      EvenlyComplete(input);
      CompleteFront(input, end, fails, fails', MAXLINE);
      Shorter(input, fails);
      ReceiveStep(input, fails, s);
      ReceiveStep(input + end, fails', s);
      var o := NextLine(input, fails, MAXLINE);
      if !Terminates(CStr(o.text)) {
        EndsMessage(o.rest, end, rest, fails, fails', Note(s, Unstuffed(CStr(o.text)), o.ret));
      }
    }
  }

  /** If the connection ends behind a line feed, the message so far is taken for a whole one:
      what is noted and counted is what would be if the terminator had arrived. */
  lemma {:induction false} EndOfFileEndsMessage(input: string, rest: string, fails: bool, fails': bool, s: Spool)
    requires EndsEvenly(input) && !Receive(input, fails, s).terminated
    ensures Receive(input + ".\r\n" + rest, fails', s) == Received(Receive(input, fails, s).spool, rest, true)
  {
    hide Receive;
    var end := ".\r\n" + rest;
    assert input + ".\r\n" + rest == input + end;
    EndsMessage(input, end, rest, fails, fails', s);
  }

  lemma {:induction false} NothingReceived(fails: bool, s: Spool)
    ensures Receive("", fails, s) == Received(s, "", false)
  {
    NoPiece("", fails, MAXLINE);
  }
}
