/** The SMTP command machine: one state variable and a session, driven by request lines. */
module Commands {
  import opened Text
  import opened Core
  import opened DataReader
  import opened LineReader
  import opened Options

  // ---------------------------------------------------------------- addresses

  /** What stands between the first angle bracket and the closing one behind it, or all of
      the string if there is no such pair. */
  function StripAddress(addr: string): string {
    var open := Span(addr, "<");
    if open == |addr| then addr
    else
      var inner := addr[open + 1..];
      var close := Span(inner, ">");
      if close == |inner| then addr else inner[..close]
  }

  /** A bracketed address is taken out of whatever surrounds it. */
  lemma {:induction false} BracketedAddress(before: string, inner: string, after: string)
    requires '<' !in before && '>' !in inner
    ensures StripAddress(before + "<" + inner + ">" + after) == inner
  {
    var s := before + "<" + inner + ">" + after;
    assert s[..|before|] == before;
    SpanAt(s, "<", |before|);
    var tail := s[|before| + 1..];
    assert tail == inner + ">" + after;
    assert tail[..|inner|] == inner;
    SpanAt(tail, ">", |inner|);
  }

  /** Anything else is left alone. */
  lemma {:induction false} PlainAddress(s: string)
    requires '<' !in s || (exists n :: 0 <= n < |s| && s[n] == '<' && '<' !in s[..n] && '>' !in s[n + 1..])
    ensures StripAddress(s) == s
  {
    if '<' !in s {
      assert s[..|s|] == s;
      SpanAt(s, "<", |s|);
    } else {
      var n :| 0 <= n < |s| && s[n] == '<' && '<' !in s[..n] && '>' !in s[n + 1..];
      SpanAt(s, "<", n);
      assert s[n + 1..][..|s[n + 1..]|] == s[n + 1..];
      SpanAt(s[n + 1..], ">", |s[n + 1..]|);
    }
  }

  // ---------------------------------------------------------------- session

  datatype State = INIT | HELO | XFWD | MAIL | RCPT | DATA | QUIT

  /** What a new session holds, and what commands put there. */
  datatype Session = Session(
    helo: Option<string>, xforward: Option<string>,
    sender: Option<string>, recipients: seq<string>, messageSize: nat)

  const FRESH := Session(None, None, None, [], 0)

  datatype Conn = Conn(state: State, session: Session)

  datatype Envelope = Envelope(sender: Option<string>, recipients: seq<string>)

  /** What a DATA command meets: the results of reading its message, and the envelope that the
      modules and the nexthop leave behind, if they change it. */
  datatype Payload = Payload(wire: seq<ReadResult>, left: Option<Envelope>)

  /** The bytes counted for a message. */
  function Bytes(wire: seq<ReadResult>): nat {
    Counted(Arrived(wire), Broken(wire))
  }

  function Leave(s: Session, left: Option<Envelope>): Session {
    match left
    case None => s
    case Some(env) => s.(sender := env.sender, recipients := env.recipients)
  }

  function StripAll(addrs: seq<string>): (r: seq<string>)
    ensures |r| == |addrs|
  {
    if addrs == [] then [] else [StripAddress(addrs[0])] + StripAll(addrs[1..])
  }

  lemma {:induction false} StripEach(addrs: seq<string>)
    ensures forall i :: 0 <= i < |addrs| ==> StripAll(addrs)[i] == StripAddress(addrs[i])
  {
    hide StripAddress;
    if addrs != [] {
      StripEach(addrs[1..]);
    }
  }

  /** What delivery over SMTP makes of an envelope, with the recipients the message names. */
  function Addressed(env: Envelope, named: seq<string>): Envelope {
    Envelope(
      if env.sender.None? then Some(StripAddress("<>")) else env.sender,
      if env.recipients == [] then StripAll(named) else env.recipients)
  }

  /** It leaves exactly the envelopes alone that have a sender and, unless the message names
      nobody, recipients. */
  lemma {:induction false} AddressedExactly(env: Envelope, named: seq<string>)
    ensures Addressed(env, named) == env <==> env.sender.Some? && (env.recipients != [] || named == [])
    ensures env.sender.None? ==> Addressed(env, named).sender == Some("")
    ensures env.recipients == [] ==>
              var r := Addressed(env, named).recipients;
              |r| == |named| && forall i :: 0 <= i < |r| ==> r[i] == StripAddress(named[i])
  {
    hide StripAddress;
    StripEach(named);
    Angled("");
    assert "<" + "" + ">" == "<>";
  }

  /** The argument behind the first jmp characters: one space is skipped, the rest stripped. */
  function Value(req: string, jmp: nat): string
    requires jmp <= |req|
  {
    var p := req[jmp..];
    Strip(if p != "" && p[0] == ' ' then p[1..] else p)
  }

  /** Position of p in s, ignoring case. */
  function FindNoCase(s: string, p: string): Option<nat> {
    if HasPrefix(s, p) then Some(0)
    else if s == "" then None
    else match FindNoCase(s[1..], p) case None => None case Some(n) => Some(n + 1)
  }

  lemma {:induction false} FoundInside(s: string, p: string)
    requires FindNoCase(s, p).Some?
    ensures var n := FindNoCase(s, p).value; n + |p| <= |s| && HasPrefix(s[n..], p)
  {
    PrefixAt(s, p);
    if HasPrefix(s, p) {
      assert s[0..] == s;
    } else {
      FoundInside(s[1..], p);
      assert s[1..][FindNoCase(s[1..], p).value..] == s[FindNoCase(s, p).value..];
    }
  }

  /** It is the first position, and there is none only if p occurs nowhere. */
  lemma {:induction false} FindIs(s: string, p: string)
    ensures match FindNoCase(s, p)
            case Some(n) => n <= |s| && HasPrefix(s[n..], p) && forall i :: 0 <= i < n ==> !HasPrefix(s[i..], p)
            case None => forall i :: 0 <= i <= |s| ==> !HasPrefix(s[i..], p)
  {
    assert s[0..] == s;
    if !HasPrefix(s, p) && s != "" {
      FindIs(s[1..], p);
      hide HasPrefix;
      assert forall i :: 1 <= i <= |s| ==> s[i..] == s[1..][i - 1..];
      assert FindNoCase(s, p).Some? ==> FindNoCase(s, p).value == FindNoCase(s[1..], p).value + 1;
    }
  }

  /** An address that mentions IPv6: anywhere loses its first five characters. */
  function XforwardAddr(value: string): string {
    if FindNoCase(value, "IPv6:").Some? then FoundInside(value, "IPv6:"); value[5..] else value
  }

  /** The address behind the tag it starts with, if it does. */
  function Untagged(value: string): string {
    if HasPrefix(value, "IPv6:") then PrefixAt(value, "IPv6:"); value[5..] else value
  }

  /** The tag is taken off correctly exactly if it stands in front or nowhere. */
  lemma {:induction false} AddressTag(value: string)
    ensures XforwardAddr(value) == Untagged(value) <==>
            HasPrefix(value, "IPv6:") || forall i :: 0 <= i <= |value| ==> !HasPrefix(value[i..], "IPv6:")
  {
    FindIs(value, "IPv6:");
    hide HasPrefix;
    assert value[0..] == value;
    if FindNoCase(value, "IPv6:").Some? {
      FoundInside(value, "IPv6:");
    }
  }

  lemma {:induction false} TaggedAddress(tag: string, addr: string)
    requires |tag| == 5 && HasPrefix(tag, "IPv6:")
    ensures XforwardAddr(tag + addr) == addr
  {
    PrefixAt(tag, "IPv6:");
    PrefixAt(tag + addr, "IPv6:");
    hide HasPrefix;
    assert (tag + addr)[5..] == addr;
  }

  /** What a request means, in the order in which the server compares its prefixes. */
  datatype Request =
    | Quit
    | Hello(extended: bool, name: string)
    | Xforward(addr: Option<string>)
    | MailFrom(arg: string)
    | RcptTo(arg: string)
    | DataCmd
    | Reset
    | Noop
    | Unrecognised

  function Parse(req: string): Request {
    if HasPrefix(req, "quit") then Quit
    else if HasPrefix(req, "helo") || HasPrefix(req, "ehlo") then
      PrefixAt(req, "helo"); PrefixAt(req, "ehlo");
      Hello(HasPrefix(req, "ehlo"), Value(req, 4))
    else if HasPrefix(req, "xforward") then
      (match FindNoCase(req, "ADDR=")
       case None => Xforward(None)
       case Some(n) => FoundInside(req, "ADDR="); Xforward(Some(Strip(req[n + 5..]))))
    else if HasPrefix(req, "mail from:") then PrefixAt(req, "mail from:"); MailFrom(Value(req, 10))
    else if HasPrefix(req, "rcpt to:") then PrefixAt(req, "rcpt to:"); RcptTo(Value(req, 8))
    else if HasPrefix(req, "data") then DataCmd
    else if HasPrefix(req, "rset") then Reset
    else if HasPrefix(req, "noop") then Noop
    else Unrecognised
  }

  /** What a request did; all other requests were refused or did nothing. */
  datatype Event =
    | HelloAccepted(renewed: bool, name: string)
    | HelloEmpty(renewed: bool)
    | XforwardAccepted(addr: string)
    | MailAccepted(arg: string)
    | RcptAccepted(arg: string)
    | DataRun(session: Session, added: nat, left: Option<Envelope>)
    | ResetDone
    | QuitDone
    | Nothing(code: int)

  /** One turn of the command loop; the size counts the bytes of all messages of a session. */
  function Step(c: Conn, r: Request, d: Payload): (Conn, Event) {
    var s := c.session;
    match r
    case Quit => (c.(state := QUIT), QuitDone)
    case Hello(_, name) =>
      var renewed := c.state != INIT;
      var s' := (if renewed then FRESH else s).(helo := Some(name));
      if name == "" then (Conn(c.state, s'), HelloEmpty(renewed)) else (Conn(HELO, s'), HelloAccepted(renewed, name))
    case Xforward(None) => (c, Nothing(501))
    case Xforward(Some(addr)) => (Conn(XFWD, s.(xforward := Some(XforwardAddr(addr)))), XforwardAccepted(addr))
    case MailFrom(arg) =>
      if c.state == MAIL then (c, Nothing(503))
      else if arg == "" then (c, Nothing(501))
      else (Conn(MAIL, s.(sender := Some(StripAddress(arg)))), MailAccepted(arg))
    case RcptTo(arg) =>
      if c.state != MAIL && c.state != RCPT then (c, Nothing(503))
      else if arg == "" then (c, Nothing(501))
      else (Conn(RCPT, s.(recipients := s.recipients + [StripAddress(arg)])), RcptAccepted(arg))
    case DataCmd =>
      if c.state != RCPT && c.state != MAIL then (c, Nothing(503))
      else if c.state != RCPT then (c, Nothing(554))
      else
        var s' := s.(messageSize := s.messageSize + Bytes(d.wire));
        (Conn(DATA, Leave(s', d.left)), DataRun(s', Bytes(d.wire), d.left))
    case Reset => (Conn(INIT, FRESH), ResetDone)
    case Noop => (c, Nothing(250))
    case Unrecognised => (c, Nothing(502))
  }

  /** A request line with what it meets if it is a DATA command that runs. */
  datatype Input = Input(req: string, data: Payload)

  /** The loop ends with QUIT; what follows is not read. */
  function Run(inputs: seq<Input>): (Conn, seq<Event>) {
    if inputs == [] then (Conn(INIT, FRESH), [])
    else
      var last := inputs[|inputs| - 1];
      var (c, log) := Run(inputs[..|inputs| - 1]);
      if c.state == QUIT then (c, log)
      else
        var (c', e) := Step(c, Parse(last.req), last.data);
        (c', log + [e])
  }

  /** One client connection. */
  class Client {
    var state: State
    var session: Session

    ghost function View(): Conn
      reads this
    {
      Conn(state, session)
    }

    constructor ()
      ensures View() == Conn(INIT, FRESH)
    {
      state, session := INIT, FRESH;
    }

    /** One request: the chain of prefix comparisons with its replies. */
    method Handle(req: string, d: Payload) returns (e: Event)
      requires Delivers(d.wire)
      modifies this
      ensures (View(), e) == Step(old(View()), Parse(req), d)
    {
      hide HasPrefix, FindNoCase, Strip, StripAddress, Arrived, Broken, Counted, Reader.Pending, Reader.Valid, Reader.Fails;
      var r := Parse(req);
      match r {
        case Quit =>
          state := QUIT;
          e := QuitDone;
        case Hello(_, name) =>
          var renewed := state != INIT;
          if renewed {
            session := FRESH;
          }
          session := session.(helo := Some(name));
          if name == "" {
            e := HelloEmpty(renewed);
          } else {
            state := HELO;
            e := HelloAccepted(renewed, name);
          }
        case Xforward(addr) =>
          if addr.Some? {
            session := session.(xforward := Some(XforwardAddr(addr.value)));
            state := XFWD;
            e := XforwardAccepted(addr.value);
          } else {
            e := Nothing(501);
          }
        case MailFrom(arg) =>
          if state == MAIL {
            e := Nothing(503);
          } else if arg == "" {
            e := Nothing(501);
          } else {
            session := session.(sender := Some(StripAddress(arg)));
            state := MAIL;
            e := MailAccepted(arg);
          }
        case RcptTo(arg) =>
          if state != MAIL && state != RCPT {
            e := Nothing(503);
          } else if arg == "" {
            e := Nothing(501);
          } else {
            session := session.(recipients := session.recipients + [StripAddress(arg)]);
            state := RCPT;
            e := RcptAccepted(arg);
          }
        case DataCmd =>
          if state != RCPT && state != MAIL {
            e := Nothing(503);
          } else if state != RCPT && state == MAIL {
            e := Nothing(554);
          } else {
            state := DATA;
            e := ProcessData(d);
          }
        case Reset =>
          session := FRESH;
          state := INIT;
          e := ResetDone;
        case Noop => e := Nothing(250);
        case Unrecognised => e := Nothing(502);
      }
    }

    /** The message is read from a stream of its own, into the size counted so far. */
    method ProcessData(d: Payload) returns (e: Event)
      requires Delivers(d.wire)
      modifies this`session
      ensures var s := old(session).(messageSize := old(session).messageSize + Bytes(d.wire));
              e == DataRun(s, Bytes(d.wire), d.left) && session == Leave(s, d.left)
    {
      hide Arrived, Broken, Counted, Noted, Receive, NoteAll, Reader.Pending, Reader.Valid, Reader.Fails;
      var reader := new Reader(d.wire);
      var size := session.messageSize;
      var spool, _ := ReceiveData(reader, size);
      ReceiveNotes(Arrived(d.wire), Broken(d.wire), Start(size));
      assert Start(size).size == size;
      session := session.(messageSize := spool.size);
      e := DataRun(session, spool.size - size, d.left);
      session := Leave(session, d.left);
    }
  }

  /** The request lines of a connection, as the loop sees them. */
  function Requests(events: seq<ReadResult>): seq<string> {
    CStrs(AllLines(Arrived(events), Broken(events), MAXLINE))
  }

  /** Request lines, each with what its DATA phase would meet. */
  function Inputs(lines: seq<string>, datas: seq<Payload>): (r: seq<Input>)
    ensures |r| == |lines|
  {
    seq(|lines|, i requires 0 <= i < |lines| => Input(lines[i], if i < |datas| then datas[i] else Payload([], None)))
  }

  /** The command loop of a connection; every DATA command reads its message from a stream of
      its own. */
  method HandleClient(events: seq<ReadResult>, datas: seq<Payload>) returns (c: Conn, log: seq<Event>)
    requires Delivers(events) && forall i :: 0 <= i < |datas| ==> Delivers(datas[i].wire)
    ensures (c, log) == Run(Inputs(Requests(events), datas))
  {
    hide Parse, Step, NextLine, Arrived, Broken, AllLines, CStrs, CStr, Inputs, Reader.Pending, Reader.Valid, Reader.Fails;
    var client := new Client();
    var reader := new Reader(events);
    var buf := new char[MAXLINE];
    ghost var fails := reader.Fails();
    ghost var whole := Requests(events);
    ghost var taken: seq<string> := [];
    log := [];
    assert [] + whole == whole;
    assert Inputs([], datas) == [];
    var i, more := 0, true;
    while more && client.state != QUIT
      invariant reader.Valid() && fresh(reader) && fresh(reader.buf) && fresh(buf) && reader.buf != buf && fresh(client)
      invariant more ==> reader.Fails() == fails
      invariant whole == taken + if more then CStrs(AllLines(reader.Pending(), fails, MAXLINE)) else []
      invariant |taken| == i && (client.View(), log) == Run(Inputs(taken, datas))
      decreases more, if more then |reader.Pending()| else 0
    {
      ghost var o := NextLine(reader.Pending(), fails, MAXLINE);
      CStrsStep(reader.Pending(), fails);
      var br, line := NextCStr(reader, buf);
      if br <= 0 {
        more := false;
      } else {
        ghost var later := CStrs(AllLines(o.rest, fails, MAXLINE));
        assert taken + ([line] + later) == (taken + [line]) + later;
        var d := if i < |datas| then datas[i] else Payload([], None);
        var e := client.Handle(line, d);
        RunOne(taken, line, datas);
        log := log + [e];
        taken := taken + [line];
        i := i + 1;
      }
    }
    if client.state == QUIT {
      RunPrefix(taken, whole, datas);
    } else {
      assert taken + [] == taken;
    }
    c := Conn(client.state, client.session);
  }

  lemma {:induction false} RunOne(taken: seq<string>, line: string, datas: seq<Payload>)
    requires Run(Inputs(taken, datas)).0.state != QUIT
    ensures var d := if |taken| < |datas| then datas[|taken|] else Payload([], None);
            var (c, log) := Run(Inputs(taken, datas));
            var (c', e) := Step(c, Parse(line), d);
            Run(Inputs(taken + [line], datas)) == (c', log + [e])
  {
    hide Parse, Step;
    var inputs := Inputs(taken + [line], datas);
    assert inputs[..|inputs| - 1] == Inputs(taken, datas);
  }

  lemma {:induction false} RunPrefix(taken: seq<string>, whole: seq<string>, datas: seq<Payload>)
    requires taken <= whole && Run(Inputs(taken, datas)).0.state == QUIT
    ensures Run(Inputs(whole, datas)) == Run(Inputs(taken, datas))
  {
    hide Run;
    assert Inputs(whole, datas)[..|taken|] == Inputs(taken, datas);
    AfterQuit(Inputs(whole, datas), |taken|);
  }

  lemma {:induction false} AfterQuit(inputs: seq<Input>, i: nat)
    requires i <= |inputs| && Run(inputs[..i]).0.state == QUIT
    ensures Run(inputs) == Run(inputs[..i])
    decreases |inputs| - i
  {
    hide Parse, Step;
    if i < |inputs| {
      assert inputs[..i + 1][..i] == inputs[..i];
      AfterQuit(inputs, i + 1);
    } else {
      assert inputs[..i] == inputs;
    }
  }

  /** A DATA phase whose connection ends behind a line feed is carried out like one whose
      message was complete. */
  lemma {:induction false} CutMessageIsProcessed(c: Conn, wire: seq<ReadResult>, whole: seq<ReadResult>, rest: string, left: Option<Envelope>)
    requires EndsEvenly(Arrived(wire))
    requires !Receive(Arrived(wire), Broken(wire), Start(0)).terminated
    requires Arrived(whole) == Arrived(wire) + ".\r\n" + rest
    ensures Step(c, DataCmd, Payload(wire, left)) == Step(c, DataCmd, Payload(whole, left))
  {
    hide Receive, Noted, Counted, Arrived, Broken;
    EndOfFileEndsMessage(Arrived(wire), rest, Broken(wire), Broken(whole), Start(0));
    ReceiveNotes(Arrived(wire), Broken(wire), Start(0));
    ReceiveNotes(Arrived(whole), Broken(whole), Start(0));
  }

  // ---------------------------------------------------------------- request lines

  /** The argument is what stands between the white space behind the verb and at the end. */
  lemma {:induction false} ArgumentIs(verb: string, gap: string, arg: string, tail: string)
    requires AllSpace(gap) && AllSpace(tail) && Trimmed(arg) && arg != ""
    ensures Value(verb + gap + arg + tail, |verb|) == arg
  {
    var p := gap + arg + tail;
    assert verb + gap + arg + tail == verb + p;
    assert (verb + p)[|verb|..] == p;
    if gap != "" && gap[0] == ' ' {
      assert p[0] == ' ' && p[1..] == gap[1..] + arg + tail;
      StripIs(gap[1..], arg, tail);
    } else {
      assert p[0] == if gap == "" then arg[0] else gap[0];
      StripIs(gap, arg, tail);
    }
  }

  /** A verb in any case is recognised in front of anything. */
  lemma {:induction false} VerbIs(verb: string, rest: string, p: string, q: string, k: nat)
    requires |verb| == |p| && HasPrefix(verb, p) && k < |p| && k < |q| && Lower(p[k]) != Lower(q[k])
    ensures HasPrefix(verb + rest, p) && !HasPrefix(verb + rest, q)
  {
    PrefixAt(verb, p);
    PrefixAt(verb + rest, p);
    PrefixAt(verb + rest, q);
  }

  lemma {:induction false} Angled(address: string)
    requires '>' !in address
    ensures var arg := "<" + address + ">"; Trimmed(arg) && arg != "" && StripAddress(arg) == address
  {
    hide StripAddress;
    BracketedAddress("", address, "");
    assert "" + "<" + address + ">" + "" == "<" + address + ">";
  }

  /** A MAIL line in the usual form, in any case and with any spacing. */
  lemma {:induction false} MailLine(verb: string, gap: string, address: string, tail: string)
    requires |verb| == 10 && HasPrefix(verb, "mail from:") && AllSpace(gap) && AllSpace(tail) && '>' !in address
    ensures Parse(verb + gap + ("<" + address + ">") + tail) == MailFrom("<" + address + ">")
    ensures StripAddress("<" + address + ">") == address
  {
    hide HasPrefix, Value, StripAddress, FindNoCase, Strip;
    var arg := "<" + address + ">";
    var rest := gap + arg + tail;
    assert verb + gap + arg + tail == verb + rest;
    Angled(address);
    ArgumentIs(verb, gap, arg, tail);
    VerbIs(verb, rest, "mail from:", "quit", 0);
    VerbIs(verb, rest, "mail from:", "helo", 0);
    VerbIs(verb, rest, "mail from:", "ehlo", 0);
    VerbIs(verb, rest, "mail from:", "xforward", 0);
  }

  /** The same for RCPT. */
  lemma {:induction false} RcptLine(verb: string, gap: string, address: string, tail: string)
    requires |verb| == 8 && HasPrefix(verb, "rcpt to:") && AllSpace(gap) && AllSpace(tail) && '>' !in address
    ensures Parse(verb + gap + ("<" + address + ">") + tail) == RcptTo("<" + address + ">")
    ensures StripAddress("<" + address + ">") == address
  {
    hide HasPrefix, Value, StripAddress, FindNoCase, Strip;
    var arg := "<" + address + ">";
    var rest := gap + arg + tail;
    assert verb + gap + arg + tail == verb + rest;
    Angled(address);
    ArgumentIs(verb, gap, arg, tail);
    VerbIs(verb, rest, "rcpt to:", "quit", 0);
    VerbIs(verb, rest, "rcpt to:", "helo", 0);
    VerbIs(verb, rest, "rcpt to:", "ehlo", 0);
    VerbIs(verb, rest, "rcpt to:", "xforward", 0);
    VerbIs(verb, rest, "rcpt to:", "mail from:", 0);
  }

  /** A greeting with a name. */
  lemma {:induction false} HelloLine(verb: string, extended: bool, gap: string, name: string, tail: string)
    requires |verb| == 4 && HasPrefix(verb, if extended then "ehlo" else "helo")
    requires AllSpace(gap) && AllSpace(tail) && Trimmed(name) && name != ""
    ensures Parse(verb + gap + name + tail) == Hello(extended, name)
  {
    hide HasPrefix, Value, FindNoCase, Strip, AllSpace, Trimmed;
    var p := if extended then "ehlo" else "helo";
    var rest := gap + name + tail;
    assert verb + gap + name + tail == verb + rest;
    ArgumentIs(verb, gap, name, tail);
    VerbIs(verb, rest, p, "quit", 0);
    VerbIs(verb, rest, p, if extended then "helo" else "ehlo", 0);
  }

  /** DATA and RSET, whatever follows them. */
  lemma {:induction false} DataLine(verb: string, rest: string)
    requires |verb| == 4 && HasPrefix(verb, "data")
    ensures Parse(verb + rest) == DataCmd
  {
    hide HasPrefix, Value, FindNoCase, Strip;
    VerbIs(verb, rest, "data", "quit", 0);
    VerbIs(verb, rest, "data", "helo", 0);
    VerbIs(verb, rest, "data", "ehlo", 0);
    VerbIs(verb, rest, "data", "xforward", 0);
    VerbIs(verb, rest, "data", "mail from:", 0);
    VerbIs(verb, rest, "data", "rcpt to:", 0);
  }

  lemma {:induction false} ResetLine(verb: string, rest: string)
    requires |verb| == 4 && HasPrefix(verb, "rset")
    ensures Parse(verb + rest) == Reset
  {
    hide HasPrefix, Value, FindNoCase, Strip;
    VerbIs(verb, rest, "rset", "quit", 0);
    VerbIs(verb, rest, "rset", "helo", 0);
    VerbIs(verb, rest, "rset", "ehlo", 0);
    VerbIs(verb, rest, "rset", "xforward", 0);
    VerbIs(verb, rest, "rset", "mail from:", 0);
    VerbIs(verb, rest, "rset", "rcpt to:", 1);
    VerbIs(verb, rest, "rset", "data", 0);
  }

  /** A greeting without one. */
  lemma {:induction false} EmptyHelloLine(verb: string, extended: bool, tail: string)
    requires |verb| == 4 && HasPrefix(verb, if extended then "ehlo" else "helo") && AllSpace(tail)
    ensures Parse(verb + tail) == Hello(extended, "")
  {
    EmptyArgument(verb, tail);
    hide HasPrefix, Value, FindNoCase, Strip, AllSpace, Trimmed;
    var p := if extended then "ehlo" else "helo";
    VerbIs(verb, tail, p, "quit", 0);
    VerbIs(verb, tail, p, if extended then "helo" else "ehlo", 0);
  }

  lemma {:induction false} EmptyArgument(verb: string, tail: string)
    requires AllSpace(tail)
    ensures Value(verb + tail, |verb|) == ""
  {
    assert (verb + tail)[|verb|..] == tail;
    var t := if tail != "" && tail[0] == ' ' then tail[1..] else tail;
    assert t + "" + "" == t;
    StripIs(t, "", "");
  }

  // ---------------------------------------------------------------- every request line

  /** No line starts with two of the verbs. */
  lemma {:induction false} OneVerb(req: string, p: string, q: string, k: nat)
    requires HasPrefix(req, p) && k < |p| && k < |q| && Lower(p[k]) != Lower(q[k])
    ensures !HasPrefix(req, q)
  {
    PrefixAt(req, p);
    PrefixAt(req, q);
  }

  /** The verbs by which a request line can start. */
  lemma {:induction false} VerbsExclude(req: string)
    ensures HasPrefix(req, "quit") ==> !Other(req, "quit")
    ensures HasPrefix(req, "data") ==> !Other(req, "data")
    ensures HasPrefix(req, "noop") ==> !Other(req, "noop")
    ensures HasPrefix(req, "rset") ==> !Other(req, "rset")
    ensures HasPrefix(req, "rcpt to:") ==> !Other(req, "rcpt to:")
    ensures HasPrefix(req, "mail from:") ==> !Other(req, "mail from:")
    ensures HasPrefix(req, "xforward") ==> !Other(req, "xforward")
    ensures HasPrefix(req, "helo") || HasPrefix(req, "ehlo") ==>
              !HasPrefix(req, "quit") && !HasPrefix(req, "xforward") && !HasPrefix(req, "mail from:") &&
              !HasPrefix(req, "rcpt to:") && !HasPrefix(req, "data") && !HasPrefix(req, "rset") && !HasPrefix(req, "noop")
    ensures !(HasPrefix(req, "helo") && HasPrefix(req, "ehlo"))
  {
    FirstLetter(req, "quit");
    FirstLetter(req, "helo");
    FirstLetter(req, "ehlo");
    FirstLetter(req, "xforward");
    FirstLetter(req, "mail from:");
    FirstLetter(req, "rcpt to:");
    FirstLetter(req, "data");
    FirstLetter(req, "rset");
    FirstLetter(req, "noop");
    if HasPrefix(req, "rcpt to:") {
      OneVerb(req, "rcpt to:", "rset", 1);
    }
    hide HasPrefix;
  }

  predicate Other(req: string, verb: string) {
    (verb != "quit" && HasPrefix(req, "quit")) || (verb != "helo" && HasPrefix(req, "helo")) ||
    (verb != "ehlo" && HasPrefix(req, "ehlo")) || (verb != "xforward" && HasPrefix(req, "xforward")) ||
    (verb != "mail from:" && HasPrefix(req, "mail from:")) || (verb != "rcpt to:" && HasPrefix(req, "rcpt to:")) ||
    (verb != "data" && HasPrefix(req, "data")) || (verb != "rset" && HasPrefix(req, "rset")) ||
    (verb != "noop" && HasPrefix(req, "noop"))
  }

  lemma {:induction false} FirstLetter(req: string, p: string)
    requires p != ""
    ensures HasPrefix(req, p) ==> req != "" && Lower(req[0]) == Lower(p[0])
  {
  }

  /** What each request line is, by the verb it starts with, in any case. */
  lemma {:induction false} VerbsExactly(req: string)
    ensures Parse(req) == Quit <==> HasPrefix(req, "quit")
    ensures Parse(req).Hello? <==> HasPrefix(req, "helo") || HasPrefix(req, "ehlo")
    ensures Parse(req).Hello? ==> (Parse(req).extended <==> HasPrefix(req, "ehlo"))
    ensures Parse(req).Xforward? <==> HasPrefix(req, "xforward")
    ensures Parse(req).MailFrom? <==> HasPrefix(req, "mail from:")
    ensures Parse(req).RcptTo? <==> HasPrefix(req, "rcpt to:")
    ensures Parse(req) == DataCmd <==> HasPrefix(req, "data")
    ensures Parse(req) == Reset <==> HasPrefix(req, "rset")
    ensures Parse(req) == Noop <==> HasPrefix(req, "noop")
    ensures Parse(req) == Unrecognised <==>
            !(HasPrefix(req, "quit") || HasPrefix(req, "helo") || HasPrefix(req, "ehlo") || HasPrefix(req, "xforward") ||
              HasPrefix(req, "mail from:") || HasPrefix(req, "rcpt to:") || HasPrefix(req, "data") ||
              HasPrefix(req, "rset") || HasPrefix(req, "noop"))
  {
    VerbsExclude(req);
    hide HasPrefix, Value, Strip, FindNoCase;
  }

  /** QUIT and NOOP, in any case and with anything behind them. */
  lemma {:induction false} QuitLine(verb: string, rest: string)
    requires |verb| == 4 && HasPrefix(verb, "quit")
    ensures Parse(verb + rest) == Quit
  {
    PrefixAt(verb, "quit");
    PrefixAt(verb + rest, "quit");
    VerbsExactly(verb + rest);
  }

  lemma {:induction false} NoopLine(verb: string, rest: string)
    requires |verb| == 4 && HasPrefix(verb, "noop")
    ensures Parse(verb + rest) == Noop
  {
    PrefixAt(verb, "noop");
    PrefixAt(verb + rest, "noop");
    VerbsExactly(verb + rest);
  }

  lemma {:induction false} FoundAt(req: string, p: string, n: nat)
    requires n <= |req| && HasPrefix(req[n..], p) && forall i :: 0 <= i < n ==> !HasPrefix(req[i..], p)
    ensures FindNoCase(req, p) == Some(n)
  {
    FindIs(req, p);
    hide HasPrefix, FindNoCase;
  }

  lemma {:induction false} PrefixKept(front: string, rest: string, p: string)
    requires HasPrefix(front, p)
    ensures HasPrefix(front + rest, p)
  {
    PrefixAt(front, p);
    PrefixAt(front + rest, p);
  }

  /** XFORWARD names what stands behind the first ADDR=, in any case, stripped; without one it
      names nothing. */
  lemma {:induction false} XforwardLine(front: string, tag: string, value: string)
    requires HasPrefix(front, "xforward") && |tag| == 5 && HasPrefix(tag, "ADDR=")
    requires forall i :: 0 <= i < |front| ==> !HasPrefix((front + (tag + value))[i..], "ADDR=")
    ensures Parse(front + (tag + value)) == Xforward(Some(Strip(value)))
  {
    hide HasPrefix, Strip, FindNoCase, Value;
    var req := front + (tag + value);
    assert req[|front|..] == tag + value && req[|front| + 5..] == value;
    PrefixKept(front, tag + value, "xforward");
    PrefixKept(tag, value, "ADDR=");
    FoundAt(req, "ADDR=", |front|);
    VerbsExclude(req);
  }

  lemma {:induction false} XforwardNothing(req: string)
    requires HasPrefix(req, "xforward") && forall i :: 0 <= i <= |req| ==> !HasPrefix(req[i..], "ADDR=")
    ensures Parse(req) == Xforward(None)
  {
    VerbsExclude(req);
    FindIs(req, "ADDR=");
    hide HasPrefix, Strip, FindNoCase, Value;
  }

  /** The answers that change nothing. */
  lemma {:induction false} OtherAnswers(c: Conn, d: Payload)
    ensures Step(c, Noop, d) == (c, Nothing(250)) && Step(c, Unrecognised, d) == (c, Nothing(502))
    ensures Step(c, Xforward(None), d) == (c, Nothing(501))
    ensures c.state != MAIL ==> Step(c, MailFrom(""), d) == (c, Nothing(501))
    ensures c.state == MAIL || c.state == RCPT ==> Step(c, RcptTo(""), d) == (c, Nothing(501))
  {
    hide StripAddress, XforwardAddr, Bytes;
  }
}
