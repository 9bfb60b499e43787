/** What a whole run of commands guarantees, stated on the log of what was accepted. */
module CommandHistory {
  import opened Text
  import opened Core
  import opened Options
  import opened Commands
  import opened LineReader
  import ModuleChain

  // ---------------------------------------------------------------- reading the log

  /** The session was replaced by a new one. */
  predicate Renews(e: Event) {
    e.ResetDone? || ((e.HelloAccepted? || e.HelloEmpty?) && e.renewed)
  }

  /** The events behind the last renewal. */
  function SinceRenewal(log: seq<Event>): seq<Event> {
    if log == [] then []
    else
      var k := |log| - 1;
      if Renews(log[k]) then [] else SinceRenewal(log[..k]) + [log[k]]
  }

  /** They are the end of the log, none of them renews, and a renewal precedes them unless
      they are the whole log. */
  lemma {:induction false} SinceRenewalIs(log: seq<Event>) returns (start: nat)
    ensures start <= |log| && SinceRenewal(log) == log[start..]
    ensures forall j :: start <= j < |log| ==> !Renews(log[j])
    ensures start > 0 ==> Renews(log[start - 1])
  {
    hide Renews;
    if log == [] {
      start := 0;
    } else {
      var k := |log| - 1;
      if Renews(log[k]) {
        start := |log|;
      } else {
        start := SinceRenewalIs(log[..k]);
        assert start > 0 ==> log[..k][start - 1] == log[start - 1];
        assert log[start..] == log[..k][start..] + [log[k]];
        assert forall j :: start <= j < k ==> log[j] == log[..k][j];
      }
    }
  }

  /** The event replaces the envelope: a DATA phase whose modules or nexthop changed it. */
  predicate Replaces(e: Event) {
    e.DataRun? && e.left.Some?
  }

  /** The recipients left by the last DATA phase that changed them, then the stripped
      arguments of the RCPTs accepted since, in order. */
  function Recipients(events: seq<Event>): seq<string> {
    if events == [] then []
    else
      var k := |events| - 1;
      var e := events[k];
      if Replaces(e) then e.left.value.recipients
      else Recipients(events[..k]) + if e.RcptAccepted? then [StripAddress(e.arg)] else []
  }

  /** The stripped argument of the last accepted MAIL, or what a later DATA phase made of it. */
  function Sender(events: seq<Event>): Option<string> {
    if events == [] then None
    else
      var k := |events| - 1;
      var e := events[k];
      if e.MailAccepted? then Some(StripAddress(e.arg))
      else if Replaces(e) then e.left.value.sender
      else Sender(events[..k])
  }

  /** The bytes of all messages. */
  function Sizes(events: seq<Event>): nat {
    if events == [] then 0
    else
      var k := |events| - 1;
      Sizes(events[..k]) + if events[k].DataRun? then events[k].added else 0
  }

  /** The event leaves the state variable alone. */
  predicate Neutral(e: Event) {
    e.Nothing? || e.HelloEmpty?
  }

  /** A MAIL was accepted and nothing that counts came after it. */
  ghost predicate InMail(log: seq<Event>) {
    exists m :: 0 <= m < |log| && log[m].MailAccepted? && forall j :: m < j < |log| ==> Neutral(log[j])
  }

  /** A transaction: MAIL, then RCPTs only, at least one of them. */
  ghost predicate Transaction(log: seq<Event>, m: int, r: int) {
    && 0 <= m < r < |log| && log[m].MailAccepted? && log[r].RcptAccepted?
    && forall j :: m < j < |log| ==> Neutral(log[j]) || log[j].RcptAccepted?
  }

  ghost predicate InRcpt(log: seq<Event>) {
    exists m, r :: Transaction(log, m, r)
  }

  // ---------------------------------------------------------------- one step

  ghost predicate Inv(c: Conn, log: seq<Event>) {
    StateInv(c, log) && SessionInv(c, log)
  }

  ghost predicate StateInv(c: Conn, log: seq<Event>) {
    (c.state == MAIL <==> InMail(log)) && (c.state == RCPT <==> InRcpt(log))
  }

  ghost predicate SessionInv(c: Conn, log: seq<Event>) {
    && c.session.recipients == Recipients(SinceRenewal(log))
    && c.session.sender == Sender(SinceRenewal(log))
    && c.session.messageSize == Sizes(SinceRenewal(log))
    && (c.state == INIT ==> FreshEnvelope(c))
  }

  lemma {:induction false} MailAppend(log: seq<Event>, e: Event)
    ensures InMail(log + [e]) <==> e.MailAccepted? || (Neutral(e) && InMail(log))
  {
    var l := log + [e];
    if e.MailAccepted? {
      assert l[|log|].MailAccepted?;
    }
    if InMail(log) && Neutral(e) {
      var m :| 0 <= m < |log| && log[m].MailAccepted? && forall j :: m < j < |log| ==> Neutral(log[j]);
      assert l[m].MailAccepted? && forall j :: m < j < |l| ==> Neutral(l[j]);
    }
    if InMail(l) {
      var m :| 0 <= m < |l| && l[m].MailAccepted? && forall j :: m < j < |l| ==> Neutral(l[j]);
      if m < |log| {
        assert Neutral(l[|log|]);
        assert log[m].MailAccepted? && forall j :: m < j < |log| ==> Neutral(log[j]) by {
          assert forall j :: m < j < |log| ==> log[j] == l[j];
        }
      }
    }
  }

  lemma {:induction false} RcptAppend(log: seq<Event>, e: Event)
    ensures InRcpt(log + [e]) <==> (Neutral(e) && InRcpt(log)) || (e.RcptAccepted? && (InMail(log) || InRcpt(log)))
  {
    var l := log + [e];
    if InRcpt(log) && (Neutral(e) || e.RcptAccepted?) {
      var m, r :| Transaction(log, m, r);
      assert Transaction(l, m, r);
    }
    if InMail(log) && e.RcptAccepted? {
      var m :| 0 <= m < |log| && log[m].MailAccepted? && forall j :: m < j < |log| ==> Neutral(log[j]);
      assert Transaction(l, m, |log|);
    }
    if InRcpt(l) {
      var m, r :| Transaction(l, m, r);
      assert Neutral(l[|log|]) || l[|log|].RcptAccepted?;
      assert forall j :: 0 <= j < |log| ==> l[j] == log[j];
      if r < |log| {
        assert Transaction(log, m, r);
      } else {
        RcptsOrNone(log, m);
      }
    }
  }

  /** Behind a MAIL there are RCPTs only: one at least, or none. */
  lemma {:induction false} RcptsOrNone(log: seq<Event>, m: int)
    requires 0 <= m < |log| && log[m].MailAccepted?
    requires forall j :: m < j < |log| ==> Neutral(log[j]) || log[j].RcptAccepted?
    ensures InMail(log) || InRcpt(log)
  {
    if r :| m < r < |log| && log[r].RcptAccepted? {
      assert Transaction(log, m, r);
    }
  }

  lemma {:induction false} SessionAppend(log: seq<Event>, e: Event)
    ensures SinceRenewal(log + [e]) == if Renews(e) then [] else SinceRenewal(log) + [e]
  {
    assert (log + [e])[..|log|] == log;
  }

  /** What one event adds to the envelope and the size. */
  function AddRecipients(before: seq<string>, e: Event): seq<string> {
    if Replaces(e) then e.left.value.recipients
    else before + if e.RcptAccepted? then [StripAddress(e.arg)] else []
  }

  function AddSender(before: Option<string>, e: Event): Option<string> {
    if e.MailAccepted? then Some(StripAddress(e.arg)) else if Replaces(e) then e.left.value.sender else before
  }

  function AddSize(before: nat, e: Event): nat {
    before + if e.DataRun? then e.added else 0
  }

  lemma {:induction false} EventsAppend(events: seq<Event>, e: Event)
    ensures Recipients(events + [e]) == AddRecipients(Recipients(events), e)
    ensures Sender(events + [e]) == AddSender(Sender(events), e)
    ensures Sizes(events + [e]) == AddSize(Sizes(events), e)
  {
    hide StripAddress;
    assert (events + [e])[..|events|] == events;
  }

  lemma {:induction false} StateStep(c: Conn, log: seq<Event>, r: Request, d: Payload)
    requires StateInv(c, log) && c.state != QUIT
    ensures var (c', e) := Step(c, r, d); StateInv(c', log + [e])
  {
    hide StripAddress, XforwardAddr, InMail, InRcpt;
    var (c', e) := Step(c, r, d);
    MailAppend(log, e);
    RcptAppend(log, e);
  }

  predicate FreshEnvelope(c: Conn) {
    c.session.sender.None? && c.session.recipients == [] && c.session.messageSize == 0
  }

  /** What one step does to the envelope, by the event it logs. */
  lemma {:induction false} EnvelopeStep(c: Conn, r: Request, d: Payload)
    requires c.state == INIT ==> FreshEnvelope(c)
    ensures var (c', e) := Step(c, r, d);
            c'.session.recipients == (if Renews(e) then [] else AddRecipients(c.session.recipients, e)) &&
            c'.session.sender == (if Renews(e) then None else AddSender(c.session.sender, e)) &&
            c'.session.messageSize == (if Renews(e) then 0 else AddSize(c.session.messageSize, e)) &&
            (c'.state == INIT ==> FreshEnvelope(c'))
  {
    hide StripAddress, XforwardAddr, Bytes;
    assert c.session.recipients + [] == c.session.recipients;
  }

  lemma {:induction false} SessionStep(c: Conn, log: seq<Event>, r: Request, d: Payload)
    requires SessionInv(c, log)
    ensures var (c', e) := Step(c, r, d); SessionInv(c', log + [e])
  {
    EnvelopeStep(c, r, d);
    hide Step, Renews, StripAddress, SinceRenewal, Recipients, Sender, Sizes;
    var (c', e) := Step(c, r, d);
    SessionAppend(log, e);
    EventsAppend(SinceRenewal(log), e);
    NoEvents();
  }

  lemma {:induction false} RenewsExcludes(e: Event)
    ensures Renews(e) ==> !e.RcptAccepted? && !e.MailAccepted? && !e.DataRun?
    ensures e.MailAccepted? ==> !Replaces(e)
  {
  }

  lemma {:induction false} NoEvents()
    ensures Recipients([]) == [] && Sender([]) == None && Sizes([]) == 0
  {
  }

  lemma {:induction false} StepInv(c: Conn, log: seq<Event>, r: Request, d: Payload)
    requires Inv(c, log) && c.state != QUIT
    ensures var (c', e) := Step(c, r, d); Inv(c', log + [e])
  {
    StateStep(c, log, r, d);
    SessionStep(c, log, r, d);
  }

  lemma {:induction false} EmptyHistory()
    ensures Recipients([]) == [] && Sender([]) == None && Sizes([]) == 0 && SinceRenewal([]) == []
    ensures !InMail([]) && !InRcpt([])
  {
  }

  /** The history invariant of every run. */
  lemma {:induction false} RunInv(inputs: seq<Input>)
    ensures Inv(Run(inputs).0, Run(inputs).1)
    decreases |inputs|
  {
    hide Parse, Step, Inv;
    if inputs == [] {
      assert Inv(Conn(INIT, FRESH), []) by { InitInv(); }
    } else {
      var last := inputs[|inputs| - 1];
      RunInv(inputs[..|inputs| - 1]);
      var (c, log) := Run(inputs[..|inputs| - 1]);
      if c.state != QUIT {
        StepInv(c, log, Parse(last.req), last.data);
      }
    }
  }

  lemma {:induction false} InitInv()
    ensures Inv(Conn(INIT, FRESH), [])
  {
    EmptyHistory();
  }

  // ---------------------------------------------------------------- main results

  /** In every run the recipients are the stripped RCPT arguments accepted since the session
      was renewed, in order, the sender is that of the last MAIL since then, each from what a
      DATA phase left if one changed the envelope, the size is that of all messages since then,
      and the initial state has a fresh session. */
  lemma {:induction false} SessionHistory(inputs: seq<Input>)
    ensures var (c, log) := Run(inputs);
            c.session.recipients == Recipients(SinceRenewal(log)) &&
            c.session.sender == Sender(SinceRenewal(log)) &&
            c.session.messageSize == Sizes(SinceRenewal(log)) &&
            (c.state == INIT ==> FreshEnvelope(c))
  {
    hide Run, StateInv;
    RunInv(inputs);
  }

  /** With modules and a nexthop that leave the envelope alone, the recipients are the stripped
      RCPT arguments, and nothing else. */
  lemma {:induction false} UntouchedRecipients(events: seq<Event>)
    requires forall i :: 0 <= i < |events| ==> !Replaces(events[i])
    ensures Recipients(events) == Arguments(events)
  {
    hide StripAddress, Replaces;
    if events != [] {
      UntouchedRecipients(events[..|events| - 1]);
    }
  }

  function Arguments(events: seq<Event>): seq<string> {
    if events == [] then []
    else
      var k := |events| - 1;
      Arguments(events[..k]) + if events[k].RcptAccepted? then [StripAddress(events[k].arg)] else []
  }

  /** Every event was logged by a step from the run up to it. */
  lemma {:induction false} LogPrefix(inputs: seq<Input>, k: nat) returns (p: nat)
    requires k < |Run(inputs).1|
    ensures p < |inputs| && Run(inputs[..p]).1 == Run(inputs).1[..k] && Run(inputs[..p]).0.state != QUIT
    ensures Run(inputs).1[k] == Step(Run(inputs[..p]).0, Parse(inputs[p].req), inputs[p].data).1
    decreases |inputs|
  {
    hide Parse, Step;
    var n := |inputs| - 1;
    var before := inputs[..n];
    if k < |Run(before).1| {
      p := LogPrefix(before, k);
      assert before[..p] == inputs[..p];
      assert Run(before).1[..k] == Run(inputs).1[..k];
    } else {
      p := n;
      assert Run(inputs).1[..k] == Run(before).1;
    }
  }

  /** A DATA command runs exactly when a MAIL and then at least one RCPT have been accepted
      and nothing else has changed the state since the MAIL. */
  lemma {:induction false} DataRunsExactly(inputs: seq<Input>, d: Payload)
    requires Run(inputs).0.state != QUIT
    ensures Step(Run(inputs).0, DataCmd, d).1.DataRun? <==> InRcpt(Run(inputs).1)
  {
    hide Run, InMail, InRcpt, SessionInv;
    RunInv(inputs);
  }

  /** Each logged DATA phase had its transaction in front of it. */
  lemma {:induction false} DataNeedsTransaction(inputs: seq<Input>, k: nat)
    requires k < |Run(inputs).1| && Run(inputs).1[k].DataRun?
    ensures InRcpt(Run(inputs).1[..k])
  {
    hide Run, InMail, InRcpt, SessionInv, Parse, StripAddress, XforwardAddr, Bytes;
    var p := LogPrefix(inputs, k);
    RunInv(inputs[..p]);
  }

  lemma {:induction false} DataBeforeTransaction(log: seq<Event>, m: int, r: int, j: nat)
    requires Transaction(log, m, r) && j < |log| && log[j].DataRun?
    ensures j < m
  {
  }

  /** Between two DATA phases a new MAIL and a new RCPT were accepted. */
  lemma {:induction false} SecondDataNeedsNewMail(inputs: seq<Input>, j: nat, k: nat)
    requires j < k < |Run(inputs).1| && Run(inputs).1[j].DataRun? && Run(inputs).1[k].DataRun?
    ensures var log := Run(inputs).1;
            exists m, r :: j < m < r < k && log[m].MailAccepted? && log[r].RcptAccepted?
  {
    DataNeedsTransaction(inputs, k);
    var log := Run(inputs).1[..k];
    var m, r :| Transaction(log, m, r);
    DataBeforeTransaction(log, m, r, j);
    assert j < m < r < k && Run(inputs).1[m].MailAccepted? && Run(inputs).1[r].RcptAccepted?;
  }

  predicate SetsSender(e: Event) {
    e.MailAccepted? || (Replaces(e) && e.left.value.sender.Some?)
  }

  predicate ClearsSender(e: Event) {
    Renews(e) || (Replaces(e) && e.left.value.sender.None?)
  }

  predicate SetsRecipients(e: Event) {
    e.RcptAccepted? || (Replaces(e) && e.left.value.recipients != [])
  }

  predicate ClearsRecipients(e: Event) {
    Renews(e) || (Replaces(e) && e.left.value.recipients == [])
  }

  /** A sender was given and has not been taken away. */
  ghost predicate SenderKept(log: seq<Event>) {
    exists m :: 0 <= m < |log| && SetsSender(log[m]) && forall j :: m < j < |log| ==> !ClearsSender(log[j])
  }

  ghost predicate RecipientsKept(log: seq<Event>) {
    exists r :: 0 <= r < |log| && SetsRecipients(log[r]) && forall j :: r < j < |log| ==> !ClearsRecipients(log[j])
  }

  lemma {:induction false} SenderKeptAppend(log: seq<Event>, e: Event)
    ensures SenderKept(log + [e]) <==> SetsSender(e) || (!ClearsSender(e) && SenderKept(log))
  {
    hide SetsSender, ClearsSender;
    var l := log + [e];
    assert forall j :: 0 <= j < |log| ==> log[j] == l[j];
    if SetsSender(e) {
      assert SetsSender(l[|log|]);
    }
    if !ClearsSender(e) && SenderKept(log) {
      var m :| 0 <= m < |log| && SetsSender(log[m]) && forall j :: m < j < |log| ==> !ClearsSender(log[j]);
      assert SetsSender(l[m]) && forall j :: m < j < |l| ==> !ClearsSender(l[j]);
    }
    if SenderKept(l) {
      var m :| 0 <= m < |l| && SetsSender(l[m]) && forall j :: m < j < |l| ==> !ClearsSender(l[j]);
      if m < |log| {
        assert !ClearsSender(l[|log|]);
        assert SetsSender(log[m]);
      }
    }
  }

  lemma {:induction false} RecipientsKeptAppend(log: seq<Event>, e: Event)
    ensures RecipientsKept(log + [e]) <==> SetsRecipients(e) || (!ClearsRecipients(e) && RecipientsKept(log))
  {
    hide SetsRecipients, ClearsRecipients;
    var l := log + [e];
    assert forall j :: 0 <= j < |log| ==> log[j] == l[j];
    if SetsRecipients(e) {
      assert SetsRecipients(l[|log|]);
    }
    if !ClearsRecipients(e) && RecipientsKept(log) {
      var m :| 0 <= m < |log| && SetsRecipients(log[m]) && forall j :: m < j < |log| ==> !ClearsRecipients(log[j]);
      assert SetsRecipients(l[m]) && forall j :: m < j < |l| ==> !ClearsRecipients(l[j]);
    }
    if RecipientsKept(l) {
      var m :| 0 <= m < |l| && SetsRecipients(l[m]) && forall j :: m < j < |l| ==> !ClearsRecipients(l[j]);
      if m < |log| {
        assert !ClearsRecipients(l[|log|]);
        assert SetsRecipients(log[m]);
      }
    }
  }

  lemma {:induction false} EnvelopeKept(log: seq<Event>)
    ensures Sender(SinceRenewal(log)).Some? <==> SenderKept(log)
    ensures Recipients(SinceRenewal(log)) != [] <==> RecipientsKept(log)
    decreases |log|
  {
    if log == [] {
      EmptyHistory();
    } else {
      var k := |log| - 1;
      assert log == log[..k] + [log[k]];
      EnvelopeKept(log[..k]);
      SessionAppend(log[..k], log[k]);
      EventsAppend(SinceRenewal(log[..k]), log[k]);
      SenderKeptAppend(log[..k], log[k]);
      RecipientsKeptAppend(log[..k], log[k]);
      RenewsExcludes(log[k]);
      NoEvents();
      hide SinceRenewal, Recipients, Sender, Sizes, SenderKept, RecipientsKept, Renews, StripAddress;
    }
  }

  /** The sender is set, and the recipient list non-empty, exactly if a command or a DATA phase
      gave one and neither a renewal nor a DATA phase has taken it away since: an empty HELO
      renews the session without leaving the transaction. */
  lemma {:induction false} EnvelopeSetExactly(inputs: seq<Input>)
    ensures var (c, log) := Run(inputs);
            (c.session.sender.Some? <==> SenderKept(log)) && (c.session.recipients != [] <==> RecipientsKept(log))
  {
    hide Run, SinceRenewal, Recipients, Sender, SenderKept, RecipientsKept;
    SessionHistory(inputs);
    EnvelopeKept(Run(inputs).1);
  }

  lemma {:induction false} MailKeepsSender(log: seq<Event>)
    requires InMail(log) && forall i :: 0 <= i < |log| ==> !log[i].HelloEmpty?
    ensures SenderKept(log)
  {
    var m :| 0 <= m < |log| && log[m].MailAccepted? && forall j :: m < j < |log| ==> Neutral(log[j]);
    assert SetsSender(log[m]);
  }

  lemma {:induction false} RcptKeepsEnvelope(log: seq<Event>)
    requires InRcpt(log) && forall i :: 0 <= i < |log| ==> !log[i].HelloEmpty?
    ensures SenderKept(log) && RecipientsKept(log)
  {
    var m, r :| Transaction(log, m, r);
    assert SetsSender(log[m]) && SetsRecipients(log[r]);
  }

  /** Without an empty HELO, a transaction has a sender and, after RCPT, recipients. */
  lemma {:induction false} TransactionIsComplete(inputs: seq<Input>)
    requires forall i :: 0 <= i < |Run(inputs).1| ==> !Run(inputs).1[i].HelloEmpty?
    ensures var (c, _) := Run(inputs);
            (c.state == MAIL || c.state == RCPT ==> c.session.sender.Some?) &&
            (c.state == RCPT ==> c.session.recipients != [])
  {
    hide Run, SessionInv, SinceRenewal, InMail, InRcpt, SenderKept, RecipientsKept;
    RunInv(inputs);
    EnvelopeSetExactly(inputs);
    var (c, log) := Run(inputs);
    if c.state == MAIL {
      MailKeepsSender(log);
    }
    if c.state == RCPT {
      RcptKeepsEnvelope(log);
    }
  }

  lemma {:induction false} DataKeepsEnvelope(c: Conn, r: Request, d: Payload)
    requires Step(c, r, d).1.DataRun?
    ensures var s := Step(c, r, d).1.session;
            c.state == RCPT && s.sender == c.session.sender && s.recipients == c.session.recipients
  {
    hide StripAddress, XforwardAddr, Bytes;
  }

  /** In such a run every DATA phase starts with an envelope that delivery over SMTP leaves
      alone, whomever the message names. */
  lemma {:induction false} DeliveryFindsEnvelope(inputs: seq<Input>, k: nat, named: seq<string>)
    requires k < |Run(inputs).1| && Run(inputs).1[k].DataRun?
    requires forall i :: 0 <= i < |Run(inputs).1| ==> !Run(inputs).1[i].HelloEmpty?
    ensures var s := Run(inputs).1[k].session;
            var env := Envelope(s.sender, s.recipients);
            env.sender.Some? && env.recipients != [] && Addressed(env, named) == env
  {
    var p := LogPrefix(inputs, k);
    var before := inputs[..p];
    assert forall i :: 0 <= i < k ==> Run(before).1[i] == Run(inputs).1[i];
    TransactionIsComplete(before);
    hide Run, SessionInv, StateInv, Addressed, StripAddress, Parse, Bytes, XforwardAddr;
    DataKeepsEnvelope(Run(before).0, Parse(inputs[p].req), inputs[p].data);
    hide Step;
    var s := Run(inputs).1[k].session;
    AddressedExactly(Envelope(s.sender, s.recipients), named);
  }

  /** The requests of a transaction with an empty HELO between MAIL and RCPT. */
  lemma {:induction false} HelloInTransaction(a: string, b: string, none: Payload, d: Payload)
    requires a != "" && b != ""
    ensures var (c1, e1) := Step(Conn(INIT, FRESH), MailFrom(a), none);
            var (c2, e2) := Step(c1, Hello(false, ""), none);
            var (c3, e3) := Step(c2, RcptTo(b), none);
            var (c4, e4) := Step(c3, DataCmd, d);
            e1.MailAccepted? && e2 == HelloEmpty(true) && e3.RcptAccepted? &&
            e4.DataRun? && e4.session.sender == None && e4.session.recipients == [StripAddress(b)]
  {
    hide StripAddress, Bytes;
  }

  /** With an empty HELO inside a transaction, DATA runs without a sender. */
  lemma {:induction false} EmptyHelloLosesSender(a: string, b: string, d: Payload)
    requires '>' !in a && '>' !in b
    ensures var none := Payload([], None);
            var (c, log) := Run([Input("MAIL FROM:<" + a + ">\r\n", none), Input("HELO\r\n", none),
                                 Input("RCPT TO:<" + b + ">\r\n", none), Input("DATA\r\n", d)]);
            |log| == 4 && log[0].MailAccepted? && log[1] == HelloEmpty(true) && log[2].RcptAccepted? &&
            log[3].DataRun? && log[3].session.sender == None && log[3].session.recipients == [b]
  {
    hide Parse, StripAddress, Run, Step, HasPrefix;
    var none := Payload([], None);
    FourLines(a, b);
    FourSteps(
      Input("MAIL FROM:<" + a + ">\r\n", none), Input("HELO\r\n", none),
      Input("RCPT TO:<" + b + ">\r\n", none), Input("DATA\r\n", d));
    HelloInTransaction("<" + a + ">", "<" + b + ">", none, d);
  }

  lemma {:induction false} FourLines(a: string, b: string)
    requires '>' !in a && '>' !in b
    ensures Parse("MAIL FROM:<" + a + ">\r\n") == MailFrom("<" + a + ">") && StripAddress("<" + a + ">") == a
    ensures Parse("HELO\r\n") == Hello(false, "")
    ensures Parse("RCPT TO:<" + b + ">\r\n") == RcptTo("<" + b + ">") && StripAddress("<" + b + ">") == b
    ensures Parse("DATA\r\n") == DataCmd
  {
    hide Parse, StripAddress, HasPrefix;
    MailForm();
    RcptForm();
    ShortForms();
    assert "MAIL FROM:" + "" + ("<" + a + ">") + "\r\n" == "MAIL FROM:<" + a + ">\r\n";
    MailLine("MAIL FROM:", "", a, "\r\n");
    assert "RCPT TO:" + "" + ("<" + b + ">") + "\r\n" == "RCPT TO:<" + b + ">\r\n";
    RcptLine("RCPT TO:", "", b, "\r\n");
    assert "HELO" + "\r\n" == "HELO\r\n" && "DATA" + "\r\n" == "DATA\r\n";
    EmptyHelloLine("HELO", false, "\r\n");
    DataLine("DATA", "\r\n");
  }

  lemma {:induction false} MailForm()
    ensures HasPrefix("MAIL FROM:", "mail from:")
  {
    PrefixAt("MAIL FROM:", "mail from:");
  }

  lemma {:induction false} RcptForm()
    ensures HasPrefix("RCPT TO:", "rcpt to:")
  {
    PrefixAt("RCPT TO:", "rcpt to:");
  }

  lemma {:induction false} ShortForms()
    ensures HasPrefix("HELO", "helo") && HasPrefix("DATA", "data")
  {
    PrefixAt("HELO", "helo");
    PrefixAt("DATA", "data");
  }

  lemma {:induction false} RunStep(inputs: seq<Input>, i: Input)
    requires Run(inputs).0.state != QUIT
    ensures var (c, log) := Run(inputs);
            var (c', e) := Step(c, Parse(i.req), i.data);
            Run(inputs + [i]) == (c', log + [e])
  {
    hide Step, Parse;
    assert (inputs + [i])[..|inputs|] == inputs;
  }

  lemma {:induction false} FourSteps(i0: Input, i1: Input, i2: Input, i3: Input)
    requires Parse(i0.req) != Quit && Parse(i1.req) != Quit && Parse(i2.req) != Quit && Parse(i3.req) != Quit
    ensures var (c1, e1) := Step(Conn(INIT, FRESH), Parse(i0.req), i0.data);
            var (c2, e2) := Step(c1, Parse(i1.req), i1.data);
            var (c3, e3) := Step(c2, Parse(i2.req), i2.data);
            var (c4, e4) := Step(c3, Parse(i3.req), i3.data);
            Run([i0, i1, i2, i3]) == (c4, [e1, e2, e3, e4])
  {
    assert Run([]) == (Conn(INIT, FRESH), []);
    hide Step, Parse, Run;
    TwoSteps([], i0, i1);
    TwoSteps([] + [i0, i1], i2, i3);
    assert [] + [i0, i1] + [i2, i3] == [i0, i1, i2, i3];
    var log := Run([] + [i0, i1] + [i2, i3]).1;
    assert log == [log[0], log[1], log[2], log[3]];
  }

  lemma {:induction false} TwoSteps(inputs: seq<Input>, i: Input, j: Input)
    requires Run(inputs).0.state != QUIT && Parse(i.req) != Quit && Parse(j.req) != Quit
    ensures var (c1, e1) := Step(Run(inputs).0, Parse(i.req), i.data);
            var (c2, e2) := Step(c1, Parse(j.req), j.data);
            Run(inputs + [i, j]) == (c2, Run(inputs).1 + [e1, e2]) && c2.state != QUIT
  {
    hide Step, Parse, Run;
    NextStep(inputs, i);
    NextStep(inputs + [i], j);
    assert inputs + [i] + [j] == inputs + [i, j];
    var e1 := Step(Run(inputs).0, Parse(i.req), i.data).1;
    var e2 := Step(Run(inputs + [i]).0, Parse(j.req), j.data).1;
    assert Run(inputs).1 + [e1] + [e2] == Run(inputs).1 + [e1, e2];
  }

  lemma {:induction false} NextStep(inputs: seq<Input>, i: Input)
    requires Run(inputs).0.state != QUIT && Parse(i.req) != Quit
    ensures Run(inputs + [i]) ==
            (Step(Run(inputs).0, Parse(i.req), i.data).0, Run(inputs).1 + [Step(Run(inputs).0, Parse(i.req), i.data).1])
    ensures Run(inputs + [i]).0.state != QUIT
  {
    OnlyQuitQuits(Run(inputs).0, Parse(i.req), i.data);
    hide Step, Parse, Run;
    RunStep(inputs, i);
  }

  lemma {:induction false} OnlyQuitQuits(c: Conn, r: Request, d: Payload)
    requires c.state != QUIT && r != Quit
    ensures Step(c, r, d).0.state != QUIT
  {
  }

  lemma {:induction false} RecipientsConcat(a: seq<Event>, b: seq<Event>)
    requires forall j :: 0 <= j < |b| ==> !Replaces(b[j])
    ensures Recipients(a + b) == Recipients(a) + Recipients(b)
  {
    hide StripAddress;
    if b == [] {
      assert a + b == a;
      assert Recipients(a) + [] == Recipients(a);
    } else {
      var k := |b| - 1;
      assert (a + b)[..|a| + k] == a + b[..k];
      RecipientsConcat(a, b[..k]);
    }
  }

  lemma {:induction false} NoneBefore(a: seq<string>, b: seq<string>)
    ensures a + b == b <==> a == []
  {
    assert [] + b == b;
  }

  /** The recipients of a transaction opened by the MAIL at m, with the envelope not replaced
      since: those left from before the MAIL come first, and they are its own exactly if there
      are none. */
  lemma {:induction false} MailKeepsRecipients(inputs: seq<Input>, m: nat)
    requires m < |Run(inputs).1| && Run(inputs).1[m].MailAccepted?
    requires forall j :: m < j < |Run(inputs).1| ==> !Renews(Run(inputs).1[j]) && !Replaces(Run(inputs).1[j])
    ensures var (c, log) := Run(inputs);
            var before := Recipients(SinceRenewal(log[..m]));
            c.session.recipients == before + Recipients(log[m..]) &&
            (c.session.recipients == Recipients(log[m..]) <==> before == [])
  {
    hide Run, SinceRenewal, Recipients, Renews, Replaces, Sender, Sizes;
    SessionHistory(inputs);
    var log := Run(inputs).1;
    RenewsExcludes(log[m]);
    var front, back := log[..m], log[m..];
    assert forall j :: 0 <= j < |back| ==> back[j] == log[m + j];
    RenewalConcat(front, back);
    assert front + back == log;
    RecipientsConcat(SinceRenewal(front), back);
    NoneBefore(Recipients(SinceRenewal(front)), Recipients(back));
  }

  lemma {:induction false} RenewalConcat(a: seq<Event>, b: seq<Event>)
    requires forall j :: 0 <= j < |b| ==> !Renews(b[j])
    ensures SinceRenewal(a + b) == SinceRenewal(a) + b
  {
    if b == [] {
      assert a + b == a;
    } else {
      var k := |b| - 1;
      hide SinceRenewal, Renews;
      assert a + b == (a + b[..k]) + [b[k]];
      assert forall j :: 0 <= j < k ==> b[..k][j] == b[j];
      SessionAppend(a + b[..k], b[k]);
      RenewalConcat(a, b[..k]);
      assert SinceRenewal(a) + b == (SinceRenewal(a) + b[..k]) + [b[k]];
    }
  }

  /** Refusals in terms of what was accepted before: MAIL is refused as nested behind a MAIL
      only, RCPT needs an open transaction, and DATA tells a missing MAIL from a missing RCPT. */
  lemma {:induction false} RefusalsExactly(inputs: seq<Input>, arg: string, d: Payload)
    requires Run(inputs).0.state != QUIT && arg != ""
    ensures var (c, log) := Run(inputs);
            (Step(c, MailFrom(arg), d).1 == Nothing(503) <==> InMail(log)) &&
            (Step(c, MailFrom(arg), d).1 == MailAccepted(arg) <==> !InMail(log)) &&
            (Step(c, RcptTo(arg), d).1 == RcptAccepted(arg) <==> InMail(log) || InRcpt(log)) &&
            (Step(c, RcptTo(arg), d).1 == Nothing(503) <==> !InMail(log) && !InRcpt(log)) &&
            (Step(c, DataCmd, d).1 == Nothing(554) <==> InMail(log)) &&
            (Step(c, DataCmd, d).1 == Nothing(503) <==> !InMail(log) && !InRcpt(log))
  {
    hide Run, InMail, InRcpt, SessionInv;
    RunInv(inputs);
  }

  // ---------------------------------------------------------------- senders are one line

  /** A line feed can only be the last character. */
  predicate OneLine(s: string) {
    forall i :: 0 <= i < |s| - 1 ==> s[i] != '\n'
  }

  lemma {:induction false} StripDropsLineFeed(s: string)
    requires OneLine(s)
    ensures '\n' !in Strip(s)
  {
    var a, b := StripParts(s);
    var t := Strip(s);
    hide Strip;
    if t != "" {
      forall i | 0 <= i < |t|
        ensures t[i] != '\n'
      {
        assert s[|a| + i] == t[i];
        assert i < |t| - 1 ==> |a| + i < |s| - 1;
      }
    }
  }

  lemma {:induction false} ValueIsPlain(req: string, jmp: nat)
    requires OneLine(req) && jmp <= |req|
    ensures '\n' !in Value(req, jmp) && |Value(req, jmp)| <= |req| - jmp
  {
    var p := req[jmp..];
    var q := if p != "" && p[0] == ' ' then p[1..] else p;
    assert OneLine(q);
    StripDropsLineFeed(q);
    var a, b := StripParts(q);
    hide Strip;
    assert |a + Strip(q) + b| == |q|;
  }

  lemma {:induction false} StripAddressTakes(v: string)
    ensures |StripAddress(v)| <= |v| && forall c :: c in StripAddress(v) ==> c in v
  {
  }

  lemma {:induction false} ArgumentIsPlain(req: string, jmp: nat)
    requires OneLine(req) && jmp <= |req|
    ensures '\n' !in StripAddress(Value(req, jmp)) && |StripAddress(Value(req, jmp))| <= |req| - jmp
  {
    hide Value, StripAddress, OneLine;
    ValueIsPlain(req, jmp);
    StripAddressTakes(Value(req, jmp));
  }

  /** What the reader returns for a request. */
  predicate IsRequest(req: string) {
    OneLine(req) && |req| < MAXLINE
  }

  /** A sender that makes a header of one line that fits the reader's buffer. */
  predicate Plain(sender: Option<string>) {
    sender.Some? ==> '\n' !in sender.value && |sender.value| <= MAXLINE - 11
  }

  lemma {:induction false} PlainStep(c: Conn, req: string, d: Payload)
    requires IsRequest(req) && Plain(c.session.sender) && (d.left.Some? ==> Plain(d.left.value.sender))
    ensures Plain(Step(c, Parse(req), d).0.session.sender)
  {
    hide Strip, Value, StripAddress, HasPrefix, OneLine, FindNoCase, XforwardAddr, Bytes;
    if HasPrefix(req, "mail from:") {
      PrefixAt(req, "mail from:");
      ArgumentIsPlain(req, 10);
    }
  }

  /** Request lines have one line feed at most, at their end, so the sender has none. */
  lemma {:induction false} SenderHasNoLineFeed(inputs: seq<Input>)
    requires forall i :: 0 <= i < |inputs| ==> IsRequest(inputs[i].req)
    requires forall i :: 0 <= i < |inputs| && inputs[i].data.left.Some? ==> Plain(inputs[i].data.left.value.sender)
    ensures Plain(Run(inputs).0.session.sender)
    decreases |inputs|
  {
    hide Parse, Step, IsRequest;
    if inputs != [] {
      var n := |inputs| - 1;
      SenderHasNoLineFeed(inputs[..n]);
      var c := Run(inputs[..n]).0;
      if c.state != QUIT {
        assert IsRequest(inputs[n].req);
        PlainStep(c, inputs[n].req, inputs[n].data);
      }
    }
  }

  lemma {:induction false} PieceIsOneLine(input: string, fails: bool)
    ensures var o := NextLine(input, fails, MAXLINE); o.ret > 0 ==> OneLine(o.text) && |o.text| < MAXLINE
  {
    var n := Cut(input, MAXLINE - 1);
    if Complete(input, MAXLINE) {
      forall i | 0 <= i < n - 1
        ensures input[..n][i] != '\n'
      {
        assert input[..n - 1][i] == input[i];
      }
    } else if input != "" {
      assert n == |input| && input[..n] == input;
      assert '\n' !in input;
      var t := input + [input[|input| - 1]];
      forall i | 0 <= i < |t| - 1
        ensures t[i] != '\n'
      {
        assert t[i] == input[i] && input[i] in input;
      }
    }
  }

  lemma {:induction false} LinesAreRequests(input: string, fails: bool)
    ensures forall i :: 0 <= i < |CStrs(AllLines(input, fails, MAXLINE))| ==> IsRequest(CStrs(AllLines(input, fails, MAXLINE))[i])
    decreases |input|
  {
    var o := NextLine(input, fails, MAXLINE);
    PieceIsOneLine(input, fails);
    CStrsStep(input, fails);
    hide NextLine, AllLines, CStrs;
    if o.ret > 0 {
      LinesAreRequests(o.rest, fails);
      var t := CStr(o.text);
      assert forall i :: 0 <= i < |t| ==> t[i] == o.text[i];
      assert IsRequest(t);
    }
  }

  /** So it is for every connection, in any chunking, whose modules leave such senders. */
  lemma {:induction false} SenderOfConnection(events: seq<ReadResult>, datas: seq<Payload>)
    requires forall i :: 0 <= i < |datas| && datas[i].left.Some? ==> Plain(datas[i].left.value.sender)
    ensures Plain(Run(Inputs(Requests(events), datas)).0.session.sender)
  {
    hide Run, AllLines, CStrs, IsRequest, Plain, Arrived, Broken;
    var lines := Requests(events);
    LinesAreRequests(Arrived(events), Broken(events));
    forall i | 0 <= i < |lines|
      ensures IsRequest(Inputs(lines, datas)[i].req)
    {
      assert Inputs(lines, datas)[i].req == lines[i];
    }
    SenderHasNoLineFeed(Inputs(lines, datas));
  }

  // ---------------------------------------------------------------- message size

  lemma {:induction false} SizesConcat(a: seq<Event>, b: seq<Event>)
    ensures Sizes(a + b) == Sizes(a) + Sizes(b)
  {
    if b == [] {
      assert a + b == a;
    } else {
      var k := |b| - 1;
      assert (a + b)[..|a| + k] == a + b[..k];
      SizesConcat(a, b[..k]);
    }
  }

  /** The size a message is judged by is its own and that of all earlier messages of the
      session. */
  lemma {:induction false} SizeExactly(inputs: seq<Input>, k: nat)
    requires k < |Run(inputs).1| && Run(inputs).1[k].DataRun?
    ensures var log := Run(inputs).1;
            log[k].session.messageSize == Sizes(SinceRenewal(log[..k])) + log[k].added
  {
    var p := LogPrefix(inputs, k);
    hide Run, Parse, StripAddress, XforwardAddr, Bytes;
    SessionHistory(inputs[..p]);
    DataAddsSize(Run(inputs[..p]).0, Parse(inputs[p].req), inputs[p].data);
  }

  lemma {:induction false} DataAddsSize(c: Conn, r: Request, d: Payload)
    requires Step(c, r, d).1.DataRun?
    ensures var e := Step(c, r, d).1; e.session.messageSize == c.session.messageSize + e.added && e.added == Bytes(d.wire)
  {
    hide StripAddress, XforwardAddr, Bytes;
  }

  /** A message is refused for its size exactly if the messages since the renewal exceed the
      limit together, whatever its own size. */
  lemma {:induction false} RefusedForSize(inputs: seq<Input>, k: nat, maxSize: nat)
    requires k < |Run(inputs).1| && Run(inputs).1[k].DataRun?
    ensures var log := Run(inputs).1;
            ModuleChain.TooBig(log[k].session.messageSize, maxSize) <==>
            maxSize != 0 && Sizes(SinceRenewal(log[..k + 1])) > maxSize
  {
    SizeExactly(inputs, k);
    var log := Run(inputs).1;
    hide Run, SinceRenewal, Sizes;
    assert log[..k + 1] == log[..k] + [log[k]];
    RenewsExcludes(log[k]);
    SessionAppend(log[..k], log[k]);
    EventsAppend(SinceRenewal(log[..k]), log[k]);
  }

  lemma {:induction false} SizesGrow(log: seq<Event>, j: nat, k: nat)
    requires j < k < |log| && forall i :: j < i <= k ==> !Renews(log[i])
    ensures Sizes(SinceRenewal(log[..j + 1])) <= Sizes(SinceRenewal(log[..k + 1]))
  {
    hide SinceRenewal, Sizes, Renews;
    var front, back := log[..j + 1], log[j + 1..k + 1];
    assert forall i :: 0 <= i < |back| ==> back[i] == log[j + 1 + i];
    RenewalConcat(front, back);
    assert front + back == log[..k + 1];
    SizesConcat(SinceRenewal(front), back);
  }

  /** Once a message was refused for its size, so is every later one until the session is
      renewed, even an empty one. */
  lemma {:induction false} OnceTooBig(inputs: seq<Input>, j: nat, k: nat, maxSize: nat)
    requires j < k < |Run(inputs).1| && Run(inputs).1[j].DataRun? && Run(inputs).1[k].DataRun?
    requires forall i :: j < i < k ==> !Renews(Run(inputs).1[i])
    requires ModuleChain.TooBig(Run(inputs).1[j].session.messageSize, maxSize)
    ensures ModuleChain.TooBig(Run(inputs).1[k].session.messageSize, maxSize)
  {
    hide Run, SinceRenewal, Sizes, Renews, ModuleChain.TooBig;
    RefusedForSize(inputs, j, maxSize);
    RefusedForSize(inputs, k, maxSize);
    RenewsExcludes(Run(inputs).1[k]);
    SizesGrow(Run(inputs).1, j, k);
  }

  // ---------------------------------------------------------------- state and greeting

  /** The state that the last event with an effect on it leaves. */
  function StateAfter(log: seq<Event>): State {
    if log == [] then INIT
    else
      match log[|log| - 1]
      case HelloAccepted(_, _) => HELO
      case XforwardAccepted(_) => XFWD
      case MailAccepted(_) => MAIL
      case RcptAccepted(_) => RCPT
      case DataRun(_, _, _) => DATA
      case ResetDone => INIT
      case QuitDone => QUIT
      case _ => StateAfter(log[..|log| - 1])
  }

  /** The name given last, if the session was not reset since. */
  function Greeting(log: seq<Event>): Option<string> {
    if log == [] then None
    else
      match log[|log| - 1]
      case HelloAccepted(_, name) => Some(name)
      case HelloEmpty(_) => Some("")
      case ResetDone => None
      case _ => Greeting(log[..|log| - 1])
  }

  /** The address forwarded last since the session was renewed. */
  function Forwarded(log: seq<Event>): Option<string> {
    if log == [] then None
    else
      var e := log[|log| - 1];
      if e.XforwardAccepted? then Some(XforwardAddr(e.addr))
      else if Renews(e) then None
      else Forwarded(log[..|log| - 1])
  }

  ghost predicate Follows(c: Conn, log: seq<Event>) {
    c.state == StateAfter(log) && c.session.helo == Greeting(log) && c.session.xforward == Forwarded(log)
  }

  lemma {:induction false} FollowsStep(c: Conn, log: seq<Event>, r: Request, d: Payload)
    requires Follows(c, log)
    ensures var (c', e) := Step(c, r, d);
            Follows(c', log + [e]) && (e.HelloAccepted? || e.HelloEmpty? ==> (e.renewed <==> StateAfter(log) != INIT))
  {
    hide StripAddress, XforwardAddr, Bytes;
    var (c', e) := Step(c, r, d);
    assert (log + [e])[..|log|] == log;
  }

  /** In every run the state, the greeting and the forwarded address are those the log tells. */
  lemma {:induction false} StateExactly(inputs: seq<Input>)
    ensures var (c, log) := Run(inputs);
            c.state == StateAfter(log) && c.session.helo == Greeting(log) && c.session.xforward == Forwarded(log)
    decreases |inputs|
  {
    hide Parse, Step, StateAfter, Greeting, Forwarded;
    if inputs == [] {
      NothingFollows();
    } else {
      var last := inputs[|inputs| - 1];
      StateExactly(inputs[..|inputs| - 1]);
      var (c, log) := Run(inputs[..|inputs| - 1]);
      if c.state != QUIT {
        FollowsStep(c, log, Parse(last.req), last.data);
      }
    }
  }

  lemma {:induction false} NothingFollows()
    ensures StateAfter([]) == INIT && Greeting([]) == None && Forwarded([]) == None
  {
  }

  /** A greeting renews the session exactly if some command has changed the state since the
      last reset, or there was none. */
  lemma {:induction false} RenewalExactly(inputs: seq<Input>, k: nat)
    requires k < |Run(inputs).1| && (Run(inputs).1[k].HelloAccepted? || Run(inputs).1[k].HelloEmpty?)
    ensures Run(inputs).1[k].renewed <==> StateAfter(Run(inputs).1[..k]) != INIT
  {
    var p := LogPrefix(inputs, k);
    hide Run, Step, Parse, StateAfter, Greeting, Forwarded;
    StateExactly(inputs[..p]);
    FollowsStep(Run(inputs[..p]).0, Run(inputs[..p]).1, Parse(inputs[p].req), inputs[p].data);
  }

  /** A run has ended exactly if some request line starts with QUIT, in any case. */
  lemma {:induction false} QuitExactly(inputs: seq<Input>)
    ensures Run(inputs).0.state == QUIT <==> exists i :: 0 <= i < |inputs| && HasPrefix(inputs[i].req, "quit")
    decreases |inputs|
  {
    hide HasPrefix, Step, Parse;
    if inputs != [] {
      var n := |inputs| - 1;
      var before, last := inputs[..n], inputs[n];
      QuitExactly(before);
      VerbsExactly(last.req);
      var c := Run(before).0;
      if c.state != QUIT {
        QuitQuits(c, Parse(last.req), last.data);
      }
      if i :| 0 <= i < |inputs| && HasPrefix(inputs[i].req, "quit") {
        assert i < n ==> HasPrefix(before[i].req, "quit");
      }
      if i :| 0 <= i < |before| && HasPrefix(before[i].req, "quit") {
        assert HasPrefix(inputs[i].req, "quit");
      }
    }
  }

  lemma {:induction false} QuitQuits(c: Conn, r: Request, d: Payload)
    requires c.state != QUIT
    ensures Step(c, r, d).0.state == QUIT <==> r == Quit
  {
    hide StripAddress, XforwardAddr, Bytes;
  }
}
