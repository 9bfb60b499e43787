/** DATA transparency for lines of any length: a line longer than the buffer is read in
    pieces, and every piece is treated as if it were a line of its own. */
module LongLines {
  import opened Text
  import opened LineReader
  import opened DataReader

  const PIECE: nat := MAXLINE - 1

  /** From a piece boundary on, no piece of the line starts with a dot. */
  predicate Safe(s: string)
    decreases |s|
  {
    s != "" && s[0] != '.' && (|s| <= PIECE || Safe(s[PIECE..]))
  }

  /** No piece of the stuffed line after its first starts with a dot. */
  predicate SafeLine(l: string) {
    var wire := Stuff(l);
    |wire| <= PIECE || Safe(wire[PIECE..])
  }

  predicate SafeLines(lines: seq<string>) {
    forall i :: 0 <= i < |lines| ==> SafeLine(lines[i])
  }

  predicate NulFree(lines: seq<string>) {
    forall i :: 0 <= i < |lines| ==> '\0' !in lines[i]
  }

  lemma {:induction false} UnstuffedForms(s: string)
    requires s != ""
    ensures Unstuffed(s) == if s[0] == '.' then s[1..] else s
    ensures Terminates(s) ==> s[0] == '.' && '\n' in s && |s| >= 2
  {
    PrefixAt(s, ".");
    PrefixAt(s, ".\r\n");
    PrefixAt(s, ".\n");
    if Terminates(s) {
      assert s[1] == '\n' || s[2] == '\n';
    }
  }

  /** What C sees of a piece: all of it, or, with a NUL, less. */
  lemma {:induction false} PieceSeen(piece: string)
    ensures '\0' !in piece ==> CStr(piece) == piece
    ensures '\0' in piece ==> |CStr(piece)| < |piece|
    ensures piece != "" && piece[0] == '.' ==> CStr(piece) != "" && CStr(piece)[0] == '.'
  {
    if '\0' !in piece {
      CStrWhole(piece);
    }
  }

  /** What is stored of a piece: all of it but a dot in front; with a NUL, less than that. */
  lemma {:induction false} PieceStored(piece: string)
    requires piece != ""
    ensures var kept := if piece[0] == '.' then piece[1..] else piece;
            var stored := Unstuffed(CStr(piece));
            if '\0' in piece then |stored| < |kept| else stored == kept
  {
    PieceSeen(piece);
    var seen := CStr(piece);
    hide CStr;
    if seen == "" {
      PrefixAt("", ".");
    } else {
      UnstuffedForms(seen);
      hide Unstuffed;
      assert seen[0] == piece[0];
    }
  }

  lemma {:induction false} NoFeedGoesOn(seen: string)
    requires '\n' !in seen
    ensures !Terminates(seen)
  {
    if seen == "" {
      PrefixAt("", ".\r\n");
      PrefixAt("", ".\n");
    } else {
      UnstuffedForms(seen);
    }
  }

  /** A full buffer without a line feed. */
  lemma {:induction false} PieceIsReceived(s: string, more: string, fails: bool, st: Spool)
    requires IsLine(s) && |s| > PIECE
    ensures IsLine(s[PIECE..])
    ensures Receive(s + more, fails, st) ==
            Receive(s[PIECE..] + more, fails, Note(st, Unstuffed(CStr(s[..PIECE])), MAXLINE))
  {
    hide Note, Unstuffed, Terminates, IsLine, Concat, CStr;
    var head := s[..PIECE];
    PieceShape(s, more);
    PieceIsRead(s + more, fails, MAXLINE, PIECE);
    hide NextLine;
    assert forall c :: c in CStr(head) ==> c in head;
    NoFeedGoesOn(CStr(head));
  }

  lemma {:induction false} PieceIsNoted(s: string, more: string, fails: bool)
    requires IsLine(s) && '\0' !in s && |s| > PIECE
    ensures Noted(s + more, fails) == [Unstuffed(s[..PIECE])] + Noted(s[PIECE..] + more, fails)
  {
    hide Unstuffed, Terminates, IsLine, Concat;
    var head := s[..PIECE];
    PieceShape(s, more);
    PieceIsRead(s + more, fails, MAXLINE, PIECE);
    hide NextLine;
    CStrWhole(head);
    UnstuffedForms(head);
  }

  lemma {:induction false} PieceShape(s: string, more: string)
    requires IsLine(s) && |s| > PIECE
    ensures IsLine(s[PIECE..]) && '\n' !in s[..PIECE] && '\n' !in (s + more)[..PIECE - 1]
    ensures var input := s + more;
            input[..PIECE] == s[..PIECE] && input[PIECE..] == s[PIECE..] + more
    ensures '\0' !in s ==> '\0' !in s[PIECE..] && '\0' !in s[..PIECE]
    ensures '\0' in s ==> '\0' in s[PIECE..] || '\0' in s[..PIECE]
  {
    var body := s[..|s| - 1];
    assert forall i :: 0 <= i < PIECE ==> s[i] == body[i] && s[i] in body;
    assert s[PIECE..][..|s| - PIECE - 1] == body[PIECE..];
    assert s == s[..PIECE] + s[PIECE..];
  }

  /** The rest of a line from a piece boundary on. */
  lemma {:induction false} RestOfLine(s: string, more: string, fails: bool, st: Spool) returns (st': Spool, ended: bool)
    requires IsLine(s)
    ensures if ended then Receive(s + more, fails, st).spool == st'
            else Receive(s + more, fails, st) == Receive(more, fails, st')
    ensures Safe(s) ==> !ended
    ensures if Safe(s) && '\0' !in s then st'.stored == st.stored + s
            else |st'.stored| < |st.stored| + |s|
    decreases |s|
  {
    hide Receive, HasPrefix, LineBreak, CStr, Terminates, Unstuffed, IsLine;
    if |s| <= PIECE {
      assert s != "" by { NotEmpty(s); }
      ShortRest(s, more, fails, st);
      if Terminates(CStr(s)) {
        DotEnds(s);
      }
      PieceStored(s);
      ended := Terminates(CStr(s));
      st' := if ended then st else Note(st, Unstuffed(CStr(s)), |s|);
    } else {
      var head, tail := s[..PIECE], s[PIECE..];
      PieceShape(s, more);
      PieceStored(head);
      PieceIsReceived(s, more, fails, st);
      var next := Note(st, Unstuffed(CStr(head)), MAXLINE);
      st', ended := RestOfLine(tail, more, fails, next);
      assert head[0] == s[0] && head + tail == s;
      assert (st.stored + head) + tail == st.stored + s;
    }
  }

  /** Only a piece with a dot in front can end the message. */
  lemma {:induction false} DotEnds(s: string)
    requires s != "" && Terminates(CStr(s))
    ensures s[0] == '.'
  {
    var seen := CStr(s);
    if seen == "" {
      NoFeedGoesOn(seen);
    } else {
      UnstuffedForms(seen);
    }
  }

  lemma {:induction false} ShortRest(s: string, more: string, fails: bool, st: Spool)
    requires IsLine(s) && |s| <= PIECE
    ensures if Terminates(CStr(s)) then Receive(s + more, fails, st).spool == st
            else Receive(s + more, fails, st) == Receive(more, fails, Note(st, Unstuffed(CStr(s)), |s|))
  {
    hide Note, Unstuffed, Terminates, NextLine, CStr;
    LineIsRead(s, more, fails, MAXLINE);
  }

  lemma {:induction false} FirstPiece(l: string)
    requires l != "" && |Stuff(l)| > PIECE
    ensures Unstuffed(Stuff(l)[..PIECE]) + Stuff(l)[PIECE..] == l
  {
    var wire := Stuff(l);
    var head := wire[..PIECE];
    UnstuffedForms(head);
    hide Unstuffed;
    assert head[0] == wire[0];
    if l[0] == '.' {
      assert wire == "." + l;
      BehindDot(l, PIECE);
    } else {
      assert wire == l && head + wire[PIECE..] == wire;
    }
  }

  lemma {:induction false} BehindDot(l: string, n: nat)
    requires 0 < n <= |l|
    ensures ("." + l)[..n][1..] + ("." + l)[n..] == l
  {
    assert ("." + l)[..n][1..] == l[..n - 1];
    assert ("." + l)[n..] == l[n - 1..];
    assert l[..n - 1] + l[n - 1..] == l;
  }

  /** What is stored of the first piece of a stuffed line. */
  lemma {:induction false} FirstStored(l: string)
    requires l != "" && |Stuff(l)| > PIECE
    ensures var stored, tail := Unstuffed(CStr(Stuff(l)[..PIECE])), Stuff(l)[PIECE..];
            if '\0' in Stuff(l)[..PIECE] then |stored| + |tail| < |l| else stored + tail == l
  {
    var head := Stuff(l)[..PIECE];
    FirstPiece(l);
    PieceStored(head);
    UnstuffedForms(head);
    hide Unstuffed, CStr, Stuff;
    assert |Unstuffed(head) + Stuff(l)[PIECE..]| == |l|;
  }

  /** A stuffed line that does not fit the buffer. */
  lemma {:induction false} LongLine(l: string, more: string, fails: bool, st: Spool) returns (st': Spool, ended: bool)
    requires IsLine(l) && |Stuff(l)| > PIECE
    ensures if ended then Receive(Stuff(l) + more, fails, st).spool == st'
            else Receive(Stuff(l) + more, fails, st) == Receive(more, fails, st')
    ensures Safe(Stuff(l)[PIECE..]) ==> !ended
    ensures if Safe(Stuff(l)[PIECE..]) && '\0' !in l then st'.stored == st.stored + l
            else |st'.stored| < |st.stored| + |l|
  {
    hide *;
    assert l != "" by { NotEmpty(l); }
    StuffedLine(l);
    FirstStored(l);
    var wire := Stuff(l);
    PieceShape(wire, more);
    var head, tail := Unstuffed(CStr(wire[..PIECE])), wire[PIECE..];
    PieceIsReceived(wire, more, fails, st);
    var next := Note(st, head, MAXLINE);
    NoteStores(st, head, MAXLINE);
    st', ended := RestOfLine(tail, more, fails, next);
    assert (st.stored + head) + tail == st.stored + (head + tail);
  }

  lemma {:induction false} StuffedLine(l: string)
    requires IsLine(l)
    ensures IsLine(Stuff(l)) && ('\0' in Stuff(l) <==> '\0' in l)
  {
    assert Stuff(l)[..|Stuff(l)| - 1] == if l[0] == '.' then "." + l[..|l| - 1] else l[..|l| - 1];
  }

  /** A stuffed line that fits the buffer. */
  lemma {:induction false} ShortLine(l: string, more: string, fails: bool, st: Spool) returns (st': Spool)
    requires IsLine(l) && |Stuff(l)| <= PIECE
    ensures Receive(Stuff(l) + more, fails, st) == Receive(more, fails, st')
    ensures if '\0' !in l then st'.stored == st.stored + l else |st'.stored| < |st.stored| + |l|
  {
    hide Receive, CStr, Terminates, Unstuffed, IsLine, Note;
    NotEmpty(l);
    StuffedLine(l);
    var wire := Stuff(l);
    ShortRest(wire, more, fails, st);
    PieceStored(wire);
    StuffedGoesOn(l);
    st' := Note(st, Unstuffed(CStr(wire)), |wire|);
    NoteStores(st, Unstuffed(CStr(wire)), |wire|);
    assert wire[0] == '.' ==> wire[1..] == l;
  }

  /** A stuffed line is never the terminator, cut off at a NUL or not. */
  lemma {:induction false} StuffedGoesOn(l: string)
    requires IsLine(l)
    ensures !Terminates(CStr(Stuff(l)))
  {
    var seen := CStr(Stuff(l));
    PrefixAt(seen, ".\r\n");
    PrefixAt(seen, ".\n");
    assert |seen| > 1 ==> seen[1] == Stuff(l)[1];
  }

  lemma {:induction false} NotEmpty(l: string)
    requires IsLine(l)
    ensures l != ""
  {
  }

  lemma {:induction false} NoteStores(st: Spool, l: string, br: nat)
    ensures Note(st, l, br).stored == st.stored + l
  {
  }

  /** A whole stuffed line; only its later pieces, and NULs, can go wrong. */
  lemma {:induction false} WholeLine(l: string, more: string, fails: bool, st: Spool) returns (st': Spool, ended: bool)
    requires IsLine(l)
    ensures if ended then Receive(Stuff(l) + more, fails, st).spool == st'
            else Receive(Stuff(l) + more, fails, st) == Receive(more, fails, st')
    ensures SafeLine(l) ==> !ended
    ensures if SafeLine(l) && '\0' !in l then st'.stored == st.stored + l
            else |st'.stored| < |st.stored| + |l|
  {
    hide Receive, Safe, Note, Stuff, IsLine, Concat;
    if |Stuff(l)| <= PIECE {
      ended := false;
      st' := ShortLine(l, more, fails, st);
    } else {
      st', ended := LongLine(l, more, fails, st);
    }
  }

  lemma {:induction false} WholeLines(lines: seq<string>, more: string, fails: bool, st: Spool)
    returns (st': Spool, ended: bool)
    requires AreLines(lines)
    ensures if ended then Receive(Concat(StuffAll(lines)) + more, fails, st).spool == st'
            else Receive(Concat(StuffAll(lines)) + more, fails, st) == Receive(more, fails, st')
    ensures SafeLines(lines) ==> !ended
    ensures if SafeLines(lines) && NulFree(lines) then st'.stored == st.stored + Concat(lines)
            else |st'.stored| < |st.stored| + |Concat(lines)|
    decreases |lines|
  {
    hide Receive, SafeLine, Stuff, IsLine, SafeLines, NulFree;
    SafeCons(lines);
    if lines == [] {
      assert Concat(StuffAll(lines)) + more == more;
      assert st.stored + Concat(lines) == st.stored;
      return st, false;
    }
    var tail := lines[1..];
    var wire := Concat(StuffAll(tail));
    assert StuffAll(lines)[1..] == StuffAll(tail);
    assert Concat(StuffAll(lines)) + more == Stuff(lines[0]) + (wire + more);
    st', ended := WholeLine(lines[0], wire + more, fails, st);
    if !ended {
      st', ended := WholeLines(tail, more, fails, st');
      assert (st.stored + lines[0]) + Concat(tail) == st.stored + Concat(lines);
    }
  }

  lemma {:induction false} SafeCons(lines: seq<string>)
    ensures lines == [] ==> SafeLines(lines) && NulFree(lines)
    ensures lines != [] ==>
              (SafeLines(lines) <==> SafeLine(lines[0]) && SafeLines(lines[1..])) &&
              (NulFree(lines) <==> '\0' !in lines[0] && NulFree(lines[1..]))
  {
    hide SafeLine;
    if lines != [] {
      assert forall i :: 0 < i < |lines| ==> lines[i] == lines[1..][i - 1];
    }
  }

  /** A body of lines of any length arrives unchanged exactly when no piece of a stuffed line
      after the first starts with a dot and there is no NUL; without such dots the reader also
      stops behind the terminator. */
  lemma {:induction false} TransparentIff(lines: seq<string>, rest: string, fails: bool, size0: nat)
    requires AreLines(lines)
    ensures var r := Receive(Concat(StuffAll(lines)) + ".\r\n" + rest, fails, Start(size0));
            (r.spool.stored == Concat(lines) <==> SafeLines(lines) && NulFree(lines)) &&
            (SafeLines(lines) ==> r.rest == rest && r.terminated)
  {
    hide Receive, SafeLines, NulFree, Start;
    var wire := Concat(StuffAll(lines));
    assert wire + ".\r\n" + rest == wire + (".\r\n" + rest);
    assert Start(size0).stored == "" by { StartEmpty(size0); }
    var st', ended := WholeLines(lines, ".\r\n" + rest, fails, Start(size0));
    TerminatorIsRead(rest, fails, st');
    assert "" + Concat(lines) == Concat(lines);
  }

  lemma {:induction false} StartEmpty(size0: nat)
    ensures Start(size0).stored == ""
  {
  }
}
