/** Buffered line reading over a descriptor that delivers its bytes in arbitrary pieces. */
module LineReader {
  import opened Text

  const BUFSIZE: nat := 1024
  const MAXLINE: nat := 1024

  /** What one call of read() gives; after the last one the descriptor is at end of file. */
  datatype ReadResult = Data(bytes: string) | Interrupted | Failed

  predicate Delivers(events: seq<ReadResult>) {
    forall i :: 0 <= i < |events| && events[i].Data? ==> 1 <= |events[i].bytes| <= BUFSIZE
  }

  /** Everything that arrives before the first failure or the end of file. */
  function Arrived(events: seq<ReadResult>): string {
    if events == [] || events[0].Failed? then ""
    else (if events[0].Data? then events[0].bytes else "") + Arrived(events[1..])
  }

  predicate Broken(events: seq<ReadResult>) {
    exists i :: 0 <= i < |events| && events[i].Failed?
  }

  lemma {:induction false} ArrivedChunks(chunks: seq<string>, events: seq<ReadResult>)
    requires |events| == |chunks| && forall i :: 0 <= i < |chunks| ==> events[i] == Data(chunks[i])
    ensures Arrived(events) == Concat(chunks) && !Broken(events)
  {
    if chunks != [] {
      ArrivedChunks(chunks[1..], events[1..]);
    }
  }

  // ---------------------------------------------------------------- specification

  /** What one call leaves behind: its result, the characters stored before the terminator
      and the input that is left. */
  datatype Outcome = Outcome(ret: int, text: string, rest: string)

  /** A piece ends at a line feed or when the buffer is full. */
  predicate Complete(input: string, nbyte: nat)
    requires nbyte >= 2
  {
    var n := Cut(input, nbyte - 1);
    0 < n && (input[n - 1] == '\n' || n == nbyte - 1)
  }

  /** A full buffer without a line feed reports one character too many; at end of file the
      last character is stored, and counted, twice. */
  function NextLine(input: string, fails: bool, nbyte: nat): (o: Outcome)
    requires nbyte >= 2
    ensures o.ret > 0 ==> |o.rest| < |input| && |o.text| < nbyte
    ensures o.ret >= -1
  {
    var n := Cut(input, nbyte - 1);
    if Complete(input, nbyte) then
      Outcome(if input[n - 1] == '\n' then n else nbyte, input[..n], input[n..])
    else if fails then Outcome(-1, "", "")
    else if input == "" then Outcome(0, "", "")
    else Outcome(|input| + 1, input + [input[|input| - 1]], "")
  }

  lemma {:induction false} PieceIsRead(input: string, fails: bool, nbyte: nat, n: nat)
    requires nbyte >= 2 && 0 < n <= |input| && n < nbyte && '\n' !in input[..n - 1]
    requires input[n - 1] == '\n' || n == nbyte - 1
    ensures Complete(input, nbyte) && Cut(input, nbyte - 1) == n
    ensures NextLine(input, fails, nbyte) == Outcome(if input[n - 1] == '\n' then n else nbyte, input[..n], input[n..])
  {
    assert input[..n] == input[..n - 1] + [input[n - 1]];
    CutIs(input, nbyte - 1, n);
  }

  /** A complete piece is read whatever follows it, and however the stream ends. */
  lemma {:induction false} CompleteFront(input: string, more: string, fails: bool, fails': bool, nbyte: nat)
    requires nbyte >= 2 && Complete(input, nbyte)
    ensures var o := NextLine(input, fails, nbyte);
            o.ret > 0 && o.rest == input[Cut(input, nbyte - 1)..] &&
            NextLine(input + more, fails', nbyte) == Outcome(o.ret, o.text, o.rest + more)
  {
    var n := Cut(input, nbyte - 1);
    var all := input + more;
    assert all[..n] == input[..n] && all[..n - 1] == input[..n - 1];
    assert all[n - 1] == input[n - 1] && all[n..] == input[n..] + more;
    SameCut(input, all, nbyte - 1);
    hide Cut;
  }

  lemma {:induction false} SameCut(input: string, all: string, limit: nat)
    requires var n := Cut(input, limit);
             0 < n <= |all| && all[..n] == input[..n] && (input[n - 1] == '\n' || n == limit)
    ensures Cut(all, limit) == Cut(input, limit)
  {
    var n := Cut(input, limit);
    assert all[n - 1] == all[..n][n - 1] == input[n - 1];
    assert all[..n - 1] == all[..n][..n - 1] == input[..n - 1];
    CutIs(all, limit, n);
  }

  lemma {:induction false} NoPiece(input: string, fails: bool, nbyte: nat)
    requires nbyte >= 2 && '\n' !in input && |input| < nbyte - 1
    ensures !Complete(input, nbyte)
    ensures NextLine(input, fails, nbyte) ==
            if fails then Outcome(-1, "", "")
            else if input == "" then Outcome(0, "", "")
            else Outcome(|input| + 1, input + [input[|input| - 1]], "")
  {
    assert input[..|input|] == input;
    CutIs(input, nbyte - 1, |input|);
  }

  /** The texts of successive calls until one returns no line. */
  function AllLines(input: string, fails: bool, nbyte: nat): seq<string>
    requires nbyte >= 2
    decreases |input|
  {
    var o := NextLine(input, fails, nbyte);
    if o.ret <= 0 then [] else [o.text] + AllLines(o.rest, fails, nbyte)
  }

  /** Lines that fit are returned one by one, with their lengths, whatever follows them. */
  lemma {:induction false} LineIsRead(line: string, rest: string, fails: bool, nbyte: nat)
    requires nbyte >= 2 && IsLine(line) && |line| < nbyte
    ensures NextLine(line + rest, fails, nbyte) == Outcome(|line|, line, rest)
  {
    CutLine(line, rest, nbyte - 1);
    assert (line + rest)[|line| - 1] == line[|line| - 1];
  }

  lemma {:induction false} NothingIsRead(fails: bool, nbyte: nat)
    requires nbyte >= 2
    ensures AllLines("", fails, nbyte) == []
  {
    NoPiece("", fails, nbyte);
  }

  lemma {:induction false} LineIsSome(line: string)
    requires IsLine(line)
    ensures |line| > 0
  {
  }

  /** A stream of lines that fit comes back as these lines. */
  lemma {:induction false} LinesAreRead(lines: seq<string>, fails: bool, nbyte: nat)
    requires nbyte >= 2 && AreLines(lines) && forall i :: 0 <= i < |lines| ==> |lines[i]| < nbyte
    ensures AllLines(Concat(lines), fails, nbyte) == lines
  {
    hide NextLine, IsLine;
    if lines == [] {
      NothingIsRead(fails, nbyte);
    } else {
      var more := Concat(lines[1..]);
      LineIsRead(lines[0], more, fails, nbyte);
      LinesAreRead(lines[1..], fails, nbyte);
      LineIsSome(lines[0]);
      assert AllLines(lines[0] + more, fails, nbyte) == [lines[0]] + AllLines(more, fails, nbyte);
      assert lines == [lines[0]] + lines[1..];
    }
  }

  /** The input ends in the middle of a piece. */
  predicate Ragged(input: string, nbyte: nat)
    requires nbyte >= 2
    decreases |input|
  {
    input != "" &&
    (if Complete(input, nbyte) then Ragged(input[Cut(input, nbyte - 1)..], nbyte) else true)
  }

  /** Whatever the line lengths, reading to the end of file loses and reorders nothing; the
      last character is repeated exactly if the input stops in the middle of a piece. */
  lemma {:induction false} ReadingConserves(input: string, nbyte: nat)
    requires nbyte >= 2
    ensures Concat(AllLines(input, false, nbyte)) ==
            if Ragged(input, nbyte) then input + [input[|input| - 1]] else input
    decreases |input|
  {
    hide NextLine, AllLines, Complete, Cut;
    AllLinesUnfold(input, nbyte);
    if Complete(input, nbyte) {
      var n := Cut(input, nbyte - 1);
      ReadingConserves(input[n..], nbyte);
      assert input == input[..n] + input[n..];
    } else if input != "" {
      var last := input + [input[|input| - 1]];
      assert Concat([last]) == last + Concat([]);
    }
  }

  lemma {:induction false} AllLinesUnfold(input: string, nbyte: nat)
    requires nbyte >= 2
    ensures AllLines(input, false, nbyte) ==
            if Complete(input, nbyte) then
              [input[..Cut(input, nbyte - 1)]] + AllLines(input[Cut(input, nbyte - 1)..], false, nbyte)
            else if input == "" then []
            else [input + [input[|input| - 1]]]
  {
    assert AllLines("", false, nbyte) == [];
  }

  lemma {:induction false} LineFeedEndsEvenly(input: string, nbyte: nat)
    requires nbyte >= 2 && (input == "" || input[|input| - 1] == '\n')
    ensures !Ragged(input, nbyte)
    decreases |input|
  {
    if input != "" {
      var n := Cut(input, nbyte - 1);
      if Complete(input, nbyte) {
        LineFeedEndsEvenly(input[n..], nbyte);
      }
    }
  }

  // ---------------------------------------------------------------- implementation

  lemma {:induction false} HeadOfWindow(window: string, later: string)
    requires window != ""
    ensures (window + later)[0] == window[0] && (window + later)[1..] == window[1..] + later
  {
  }

  /** The read buffer together with the pending results of its descriptor. */
  class Reader {
    var count: int
    var current: nat
    const buf: array<char>
    var events: seq<ReadResult>

    ghost predicate Valid()
      reads this
    {
      buf.Length == BUFSIZE && -1 <= count && current <= BUFSIZE && current + count <= BUFSIZE && Delivers(events)
    }

    /** All that will be read before the first failure or the end of file. */
    ghost function Pending(): string
      requires Valid()
      reads this, buf
    {
      (if count > 0 then buf[current..current + count] else "") + Arrived(events)
    }

    ghost function Fails(): bool
      reads this
    {
      Broken(events)
    }

    constructor (events: seq<ReadResult>)
      requires Delivers(events)
      ensures Valid() && Pending() == Arrived(events) && Fails() == Broken(events) && fresh(buf)
    {
      this.events := events;
      count, current := 0, 0;
      buf := new char[BUFSIZE];
    }

    /** The next character; without one the old value of the caller's variable is left. */
    method ReadChar(c0: char) returns (br: int, c: char)
      requires Valid()
      modifies this, buf
      ensures Valid()
      ensures old(Pending()) != "" ==>
                br == 1 && c == old(Pending())[0] && Pending() == old(Pending())[1..] && Fails() == old(Fails())
      ensures old(Pending()) == "" ==> c == c0 && br == if old(Fails()) then -1 else 0
      ensures br == 0 ==> Pending() == "" && !Fails()
    {
      hide Arrived, Broken, Delivers;
      br := Refill();
      c := c0;
      if br == 1 {
        ghost var window, later := buf[current..current + count], Arrived(events);
        HeadOfWindow(window, later);
        c := buf[current];
        current, count := current + 1, count - 1;
        assert (if count > 0 then buf[current..current + count] else "") == window[1..];
      }
    }

    /** Reads until there is a character in the buffer, or none will come. */
    method Refill() returns (br: int)
      requires Valid()
      modifies this, buf
      ensures Valid()
      ensures old(Pending()) != "" ==> br == 1 && count > 0 && Pending() == old(Pending()) && Fails() == old(Fails())
      ensures old(Pending()) == "" ==> br == if old(Fails()) then -1 else 0
      ensures br == 0 ==> Pending() == "" && !Fails()
    {
      hide Arrived, Broken;
      while count < 1
        invariant Valid()
        invariant Pending() == old(Pending()) && Fails() == old(Fails())
        decreases |events|
      {
        EventStep(events);
        if events == [] {
          count := 0;
          return 0;
        }
        var r := events[0];
        events := events[1..];
        match r {
          case Interrupted => count, current := 0, 0;
          case Failed => count := -1; return -1;
          case Data(bytes) => Store(bytes);
        }
      }
      br := 1;
    }

    method Store(bytes: string)
      requires buf.Length == BUFSIZE && 1 <= |bytes| <= BUFSIZE
      modifies this`count, this`current, buf
      ensures count == |bytes| && current == 0 && buf[..count] == bytes
    {
      forall k | 0 <= k < |bytes| {
        buf[k] := bytes[k];
      }
      count, current := |bytes|, 0;
    }

    /** One line into dst, as long as nbyte allows, with a terminator. */
    method ReadLine(dst: array<char>, nbyte: nat) returns (ret: int)
      requires Valid() && dst != buf && 2 <= nbyte <= dst.Length
      modifies this, buf, dst
      ensures Valid()
      ensures var o := NextLine(old(Pending()), old(Fails()), nbyte);
              ret == o.ret &&
              (ret > 0 ==> dst[..|o.text|] == o.text && dst[|o.text|] == '\0' && Pending() == o.rest && Fails() == old(Fails()))
    {
      hide NextLine, Complete, Cut, Pending, Valid, Fails;
      ghost var input, fails := Pending(), Fails();
      var c := '\0';
      var br := 0;
      var n := 1;
      var ptr := 0;
      while n < nbyte
        invariant 1 <= n <= nbyte && ptr == n - 1 <= |input| && Valid()
        invariant Pending() == input[ptr..] && Fails() == fails
        invariant dst[..ptr] == input[..ptr] && '\n' !in input[..ptr]
        invariant ptr > 0 ==> br == 1 && c == input[ptr - 1]
      {
        br, c := ReadChar(c);
        if br < 0 {
          assert input[..ptr] == input;
          NoPiece(input, fails, nbyte);
          return -1;
        }
        dst[ptr] := c;
        ptr := ptr + 1;
        if br == 0 || c == '\n' {
          break;
        }
        assert input[..ptr] == input[..ptr - 1] + [c];
        n := n + 1;
      }
      if br == 0 {
        assert input[..ptr - 1] == input;
        NoPiece(input, fails, nbyte);
      } else {
        assert input[..ptr] == dst[..ptr];
        PieceIsRead(input, fails, nbyte, ptr);
      }
      if br == 0 && n == 1 {
        return 0;
      }
      dst[ptr] := '\0';
      ret := n;
    }
  }

  /** What the caller sees of the lines as C strings. */
  function CStrs(lines: seq<string>): (t: seq<string>)
    ensures |t| == |lines| && forall i :: 0 <= i < |t| ==> t[i] == CStr(lines[i])
  {
    if lines == [] then [] else [CStr(lines[0])] + CStrs(lines[1..])
  }

  lemma {:induction false} CStrsStep(input: string, fails: bool)
    ensures var o := NextLine(input, fails, MAXLINE);
            CStrs(AllLines(input, fails, MAXLINE)) ==
            if o.ret <= 0 then [] else [CStr(o.text)] + CStrs(AllLines(o.rest, fails, MAXLINE))
  {
    hide NextLine;
  }

  /** The next line as a C string, by way of the caller's buffer. */
  method NextCStr(reader: Reader, buf: array<char>) returns (br: int, line: string)
    requires reader.Valid() && reader.buf != buf && buf.Length == MAXLINE
    modifies reader, reader.buf, buf
    ensures reader.Valid()
    ensures var o := NextLine(old(reader.Pending()), old(reader.Fails()), MAXLINE);
            br == o.ret &&
            (br > 0 ==> line == CStr(o.text) && reader.Pending() == o.rest && reader.Fails() == old(reader.Fails()))
  {
    hide NextLine, CStr, Reader.Pending, Reader.Valid, Reader.Fails;
    ghost var o := NextLine(reader.Pending(), reader.Fails(), MAXLINE);
    line := "";
    br := reader.ReadLine(buf, MAXLINE);
    if br > 0 {
      line := FromBuffer(buf, |o.text|);
    }
  }

  /** Reads lines until a call returns none; the result depends on the bytes that arrive, not
      on how they are cut into results of read(). */
  method ReadLines(events: seq<ReadResult>) returns (lines: seq<string>)
    requires Delivers(events)
    ensures lines == CStrs(AllLines(Arrived(events), Broken(events), MAXLINE))
  {
    hide NextLine, Arrived, Broken, AllLines, CStrs, CStr, Reader.Pending, Reader.Valid, Reader.Fails;
    var reader := new Reader(events);
    var buf := new char[MAXLINE];
    ghost var fails := reader.Fails();
    ghost var whole := CStrs(AllLines(Arrived(events), fails, MAXLINE));
    lines := [];
    assert [] + whole == whole;
    var more := true;
    while more
      invariant reader.Valid() && fresh(reader) && fresh(reader.buf) && reader.buf != buf
      invariant more ==> reader.Fails() == fails
      invariant whole == lines + if more then CStrs(AllLines(reader.Pending(), fails, MAXLINE)) else []
      decreases more, if more then |reader.Pending()| else 0
    {
      ghost var o := NextLine(reader.Pending(), fails, MAXLINE);
      CStrsStep(reader.Pending(), fails);
      var br, line := NextCStr(reader, buf);
      if br <= 0 {
        more := false;
      } else {
        ghost var later := CStrs(AllLines(o.rest, fails, MAXLINE));
        assert lines + ([line] + later) == (lines + [line]) + later;
        lines := lines + [line];
      }
    }
    assert lines + [] == lines;
  }

  /** The lines of any stream of short, NUL-free lines, in any partition. */
  lemma {:induction false} StreamIsRead(lines: seq<string>, events: seq<ReadResult>)
    requires AreLines(lines) && forall i :: 0 <= i < |lines| ==> |lines[i]| <= 1023 && '\0' !in lines[i]
    requires Arrived(events) == Concat(lines)
    ensures CStrs(AllLines(Arrived(events), Broken(events), MAXLINE)) == lines
  {
    LinesAreRead(lines, Broken(events), MAXLINE);
    forall i | 0 <= i < |lines|
      ensures CStr(lines[i]) == lines[i]
    {
      CStrWhole(lines[i]);
    }
  }

  lemma {:induction false} EventStep(events: seq<ReadResult>)
    ensures events == [] ==> Arrived(events) == "" && !Broken(events)
    ensures events != [] && events[0].Failed? ==> Arrived(events) == "" && Broken(events)
    ensures events != [] && !events[0].Failed? ==>
              Arrived(events) == (if events[0].Data? then events[0].bytes else "") + Arrived(events[1..]) &&
              (Broken(events) <==> Broken(events[1..]))
  {
    if events != [] {
      BrokenTail(events);
    }
  }

  lemma {:induction false} BrokenTail(events: seq<ReadResult>)
    requires events != []
    ensures Broken(events) <==> events[0].Failed? || Broken(events[1..])
  {
    if Broken(events) {
      var i :| 0 <= i < |events| && events[i].Failed?;
      if i > 0 {
        assert events[1..][i - 1].Failed?;
      }
    }
    if Broken(events[1..]) {
      var i :| 0 <= i < |events[1..]| && events[1..][i].Failed?;
      assert events[i + 1].Failed?;
    }
  }
}
