/** The module phase of a DATA command: which modules run, what is delivered and what the
    client is told. */
module ModuleChain {
  import opened Options

  /** What a module run gives: its result and whether the session has a response text then. */
  datatype Module = Module(name: string, result: int, response: bool)

  /** The settings and the outcomes of the foreign calls behind the modules. */
  datatype Env = Env(
    moduleFail: int,
    addHeader: bool,
    flush: int,              // result of rewriting the queue file: 0 or -1
    nexthop: Option<int>,    // result of the delivery, if a nexthop is configured
    nexthopFailCode: int)

  /** A reply from the session's response text, or the standard text for a code. */
  datatype Reply = Custom(code: int) | Standard(code: int)

  datatype Act =
    | Invoke(index: nat)
    | Send(reply: Reply)
    | Flush
    | Deliver(result: int)

  // ---------------------------------------------------------------- the code

  /** The handler for a module result other than 0: what it sends, and whether the chain is
      abandoned (0), stopped (1) or goes on to the nexthop (2). */
  method HandleProcessingError(moduleFail: int, response: bool, retval: int) returns (acts: seq<Act>, code: int)
    ensures acts == HandlerReplies(moduleFail, response, retval) && code == HandlerCode(moduleFail, retval)
  {
    acts := [];
    if retval == -1 {
      match moduleFail {
        case 1 => return acts, 1;
        case 2 => return acts + [Send(Standard(552))], 0;
        case 3 => return acts + [Send(Standard(451))], 0;
        case _ =>
      }
    } else if retval == 1 {
      acts := [Send(if response then Custom(250) else Standard(250))];
      return acts, 1;
    } else if retval == 2 {
      return acts, 2;
    } else {
      acts := [Send(if response then Custom(retval) else Standard(retval))];
      return acts, 1;
    }
    code := 0;
  }

  function HandlerReplies(moduleFail: int, response: bool, retval: int): seq<Act> {
    if retval == -1 then
      (if moduleFail == 2 then [Send(Standard(552))] else if moduleFail == 3 then [Send(Standard(451))] else [])
    else if retval == 2 then []
    else
      var code := if retval == 1 then 250 else retval;
      [Send(if response then Custom(code) else Standard(code))]
  }

  function HandlerCode(moduleFail: int, retval: int): int {
    if retval == -1 then (if moduleFail == 1 then 1 else 0)
    else if retval == 2 then 2
    else 1
  }

  /** Index of the first module with a result other than 0, or the number of modules. */
  function FirstStop(modules: seq<Module>): (k: nat)
    ensures k <= |modules|
    ensures forall i :: 0 <= i < k ==> modules[i].result == 0
    ensures k < |modules| ==> modules[k].result != 0
  {
    if modules == [] || modules[0].result != 0 then 0 else 1 + FirstStop(modules[1..])
  }

  function Invocations(n: nat): seq<Act> {
    seq(n, i requires 0 <= i < n => Invoke(i))
  }

  /** The chain reaches delivery: every module gave 0, or the first other result was 2. */
  predicate ReachesDelivery(modules: seq<Module>) {
    var k := FirstStop(modules);
    k == |modules| || modules[k].result == 2
  }

  /** Queue file, then nexthop, then the nexthop's error reply. */
  function DeliveryActs(env: Env): seq<Act> {
    [Flush] +
    (if env.flush != 0 || env.nexthop.None? then []
     else [Deliver(env.nexthop.value)] + if env.nexthop.value != 0 then [Send(Custom(env.nexthopFailCode))] else [])
  }

  function DeliveryResult(env: Env): int {
    if env.flush != 0 then -1 else if env.nexthop.None? then 0 else env.nexthop.value
  }

  /** What the whole chain does. */
  function ChainActs(modules: seq<Module>, env: Env): seq<Act> {
    var k := FirstStop(modules);
    if k == |modules| then Invocations(k) + DeliveryActs(env)
    else
      Invocations(k + 1) + HandlerReplies(env.moduleFail, modules[k].response, modules[k].result) +
      if modules[k].result == 2 then DeliveryActs(env) else []
  }

  function ChainResult(modules: seq<Module>, env: Env): int {
    if ReachesDelivery(modules) then DeliveryResult(env)
    else if HandlerCode(env.moduleFail, modules[FirstStop(modules)].result) == 0 then -1
    else 1
  }

  const TITLE := "X-Spmfilter: "

  /** The header listing the modules that ran: a separator follows each name but that of the
      last module of the list. */
  function ModuleHeader(modules: seq<Module>, k: nat): string
    requires k <= |modules|
  {
    if k == 0 then TITLE
    else if k == |modules| then ModuleHeader(modules, k - 1) + modules[k - 1].name
    else ModuleHeader(modules, k - 1) + modules[k - 1].name + ", "
  }

  /** Runs the modules in list order and delivers; `header` is the text added to the message. */
  method ProcessQueue(modules: seq<Module>, env: Env) returns (ret: int, acts: seq<Act>, header: Option<string>)
    requires env.flush == 0 || env.flush == -1
    ensures acts == ChainActs(modules, env) && ret == ChainResult(modules, env)
    ensures header == if env.addHeader && ReachesDelivery(modules) then Some(ModuleHeader(modules, FirstStop(modules))) else None
  {
    acts, header := [], None;
    var text := TITLE;
    ret := 0;
    var modCount := 0;
    var elem := 0;
    ghost var stop := FirstStop(modules);
    while elem < |modules|
      invariant 0 <= elem <= stop && modCount == elem && ret == 0
      invariant acts == Invocations(elem) && text == ModuleHeader(modules, elem)
    {
      var curmod := modules[elem];
      acts := acts + [Invoke(elem)];
      assert acts == Invocations(elem + 1);
      ret := curmod.result;
      if ret != 0 {
        var replies, code := HandleProcessingError(env.moduleFail, curmod.response, ret);
        acts := acts + replies;
        assert elem == stop;
        ret := code;
        if ret == 0 {
          assert acts + [] == acts;
          return -1, acts, None;
        } else if ret == 1 {
          assert acts + [] == acts;
          return 1, acts, None;
        } else if ret == 2 {
          break;
        }
      }
      modCount := modCount + 1;
      if modCount == |modules| {
        text := text + curmod.name;
      } else {
        text := text + curmod.name + ", ";
      }
      elem := elem + 1;
    }
    assert elem == stop;
    if env.addHeader {
      header := Some(text);
    }
    ghost var before := acts;
    acts := acts + [Flush];
    ret := env.flush;
    if ret == 0 && env.nexthop.Some? {
      acts := acts + [Deliver(env.nexthop.value)];
      ret := env.nexthop.value;
      if ret != 0 {
        acts := acts + [Send(Custom(env.nexthopFailCode))];
      }
    }
    assert acts == before + DeliveryActs(env);
  }

  /** The caller in the SMTP engine: a reply of its own unless the chain failed or stopped. */
  method ProcessModules(modules: seq<Module>, env: Env, response: bool) returns (acts: seq<Act>)
    requires env.flush == 0 || env.flush == -1
    ensures acts == PhaseActs(modules, env, response)
  {
    var ret, done, _ := ProcessQueue(modules, env);
    acts := done;
    if ret == -1 || ret == 1 {
      assert acts + [] == acts;
      return;
    }
    acts := acts + [Send(if response then Custom(250) else Standard(250))];
  }

  /** The module phase with the engine's own reply. */
  function PhaseActs(modules: seq<Module>, env: Env, response: bool): seq<Act> {
    var ret := ChainResult(modules, env);
    ChainActs(modules, env) +
    if ret == -1 || ret == 1 then [] else [Send(if response then Custom(250) else Standard(250))]
  }

  // ---------------------------------------------------------------- properties

  /** The modules that were run, in the order in which they were run. */
  function Invoked(acts: seq<Act>): seq<nat> {
    if acts == [] then []
    else (if acts[0].Invoke? then [acts[0].index] else []) + Invoked(acts[1..])
  }

  function Sends(acts: seq<Act>): nat {
    if acts == [] then 0 else (if acts[0].Send? then 1 else 0) + Sends(acts[1..])
  }

  function Deliveries(acts: seq<Act>): nat {
    if acts == [] then 0 else (if acts[0].Deliver? then 1 else 0) + Deliveries(acts[1..])
  }

  lemma {:induction false} InvokedAppend(a: seq<Act>, b: seq<Act>)
    ensures Invoked(a + b) == Invoked(a) + Invoked(b)
  {
    if a == [] {
      assert a + b == b;
    } else {
      assert (a + b)[0] == a[0] && (a + b)[1..] == a[1..] + b;
      InvokedAppend(a[1..], b);
    }
  }

  lemma {:induction false} SendsAppend(a: seq<Act>, b: seq<Act>)
    ensures Sends(a + b) == Sends(a) + Sends(b)
  {
    if a == [] {
      assert a + b == b;
    } else {
      assert (a + b)[0] == a[0] && (a + b)[1..] == a[1..] + b;
      SendsAppend(a[1..], b);
    }
  }

  lemma {:induction false} DeliveriesAppend(a: seq<Act>, b: seq<Act>)
    ensures Deliveries(a + b) == Deliveries(a) + Deliveries(b)
  {
    if a == [] {
      assert a + b == b;
    } else {
      assert (a + b)[0] == a[0] && (a + b)[1..] == a[1..] + b;
      DeliveriesAppend(a[1..], b);
    }
  }

  lemma {:induction false} CountsAppend(a: seq<Act>, b: seq<Act>)
    ensures Invoked(a + b) == Invoked(a) + Invoked(b)
    ensures Sends(a + b) == Sends(a) + Sends(b)
    ensures Deliveries(a + b) == Deliveries(a) + Deliveries(b)
  {
    hide Invoked, Sends, Deliveries;
    InvokedAppend(a, b);
    SendsAppend(a, b);
    DeliveriesAppend(a, b);
  }

  lemma {:induction false} CountsOne(x: Act)
    ensures Invoked([x]) == if x.Invoke? then [x.index] else []
    ensures Sends([x]) == if x.Send? then 1 else 0
    ensures Deliveries([x]) == if x.Deliver? then 1 else 0
  {
    assert [x][1..] == [];
  }

  lemma {:induction false} InvocationCounts(n: nat)
    ensures Invoked(Invocations(n)) == seq(n, i => i)
    ensures Sends(Invocations(n)) == 0 && Deliveries(Invocations(n)) == 0
  {
    if n > 0 {
      InvocationCounts(n - 1);
      assert Invocations(n) == Invocations(n - 1) + [Invoke(n - 1)];
      CountsAppend(Invocations(n - 1), [Invoke(n - 1)]);
      CountsOne(Invoke(n - 1));
      assert seq(n, i => i) == seq(n - 1, i => i) + [n - 1];
    }
  }

  lemma {:induction false} HandlerCounts(moduleFail: int, response: bool, retval: int)
    ensures var acts := HandlerReplies(moduleFail, response, retval);
            Invoked(acts) == [] && Deliveries(acts) == 0 &&
            Sends(acts) == if retval == 2 || (retval == -1 && moduleFail != 2 && moduleFail != 3) then 0 else 1
  {
    var acts := HandlerReplies(moduleFail, response, retval);
    if acts != [] {
      assert acts == [acts[0]];
      CountsOne(acts[0]);
    }
  }

  /** The nexthop is called and says something else than success. */
  predicate DeliveryFails(env: Env) {
    env.flush == 0 && env.nexthop.Some? && env.nexthop.value != 0
  }

  lemma {:induction false} DeliveryCounts(env: Env)
    ensures var acts := DeliveryActs(env);
            Invoked(acts) == [] &&
            Deliveries(acts) == (if env.flush == 0 && env.nexthop.Some? then 1 else 0) &&
            Sends(acts) == if DeliveryFails(env) then 1 else 0
  {
    CountsOne(Flush);
    if env.flush == 0 && env.nexthop.Some? {
      var d, s := Deliver(env.nexthop.value), Send(Custom(env.nexthopFailCode));
      CountsOne(d);
      CountsOne(s);
      CountsAppend([Flush], [d]);
      CountsAppend([Flush] + [d], [s]);
      assert DeliveryActs(env) == if env.nexthop.value != 0 then [Flush] + [d] + [s] else [Flush] + [d];
    } else {
      assert DeliveryActs(env) == [Flush];
    }
  }

  lemma {:induction false} ChainCounts(modules: seq<Module>, env: Env)
    ensures var acts := ChainActs(modules, env);
            var k := FirstStop(modules);
            Invoked(acts) == seq(if k == |modules| then k else k + 1, i => i) &&
            Deliveries(acts) == (if ReachesDelivery(modules) && env.flush == 0 && env.nexthop.Some? then 1 else 0) &&
            Sends(acts) ==
              (if k < |modules| then Sends(HandlerReplies(env.moduleFail, modules[k].response, modules[k].result)) else 0) +
              (if ReachesDelivery(modules) && DeliveryFails(env) then 1 else 0)
  {
    hide DeliveryActs, HandlerReplies, Invocations, Sends, Deliveries, Invoked;
    var k := FirstStop(modules);
    DeliveryCounts(env);
    NoCounts();
    if k == |modules| {
      InvocationCounts(k);
      CountsAppend(Invocations(k), DeliveryActs(env));
    } else {
      InvocationCounts(k + 1);
      var replies := HandlerReplies(env.moduleFail, modules[k].response, modules[k].result);
      HandlerCounts(env.moduleFail, modules[k].response, modules[k].result);
      CountsAppend(Invocations(k + 1), replies);
      CountsAppend(Invocations(k + 1) + replies, if modules[k].result == 2 then DeliveryActs(env) else []);
    }
  }

  lemma {:induction false} NoCounts()
    ensures Invoked([]) == [] && Sends([]) == 0 && Deliveries([]) == 0
  {
  }

  lemma {:induction false} PhaseCounts(modules: seq<Module>, env: Env, response: bool)
    ensures var acts := PhaseActs(modules, env, response);
            var chain := ChainActs(modules, env);
            var ret := ChainResult(modules, env);
            Invoked(acts) == Invoked(chain) && Deliveries(acts) == Deliveries(chain) &&
            Sends(acts) == Sends(chain) + if ret == -1 || ret == 1 then 0 else 1
  {
    hide ChainActs, ChainResult, Sends, Deliveries, Invoked;
    NoCounts();
    var reply := Send(if response then Custom(250) else Standard(250));
    CountsOne(reply);
    var ret := ChainResult(modules, env);
    CountsAppend(ChainActs(modules, env), if ret == -1 || ret == 1 then [] else [reply]);
  }

  /** Modules run in list order, each at most once and none after a result other than 0. */
  lemma {:induction false} ModulesRunInOrder(modules: seq<Module>, env: Env, response: bool)
    ensures var ran := Invoked(PhaseActs(modules, env, response));
            |ran| <= |modules| &&
            (forall i :: 0 <= i < |ran| ==> ran[i] == i) &&
            (forall i :: 0 <= i < |ran| - 1 ==> modules[i].result == 0) &&
            (|ran| < |modules| ==> |ran| > 0 && modules[|ran| - 1].result != 0)
  {
    hide PhaseActs, ChainActs, Invoked;
    PhaseCounts(modules, env, response);
    ChainCounts(modules, env);
  }

  /** The nexthop is called, once, exactly when all results are 0, or zeros then a 2, and the
      flush succeeded and a nexthop is configured. */
  lemma {:induction false} NexthopExactly(modules: seq<Module>, env: Env, response: bool)
    ensures var n := Deliveries(PhaseActs(modules, env, response));
            n <= 1 &&
            (n == 1 <==>
               env.flush == 0 && env.nexthop.Some? &&
               ((forall i :: 0 <= i < |modules| ==> modules[i].result == 0) ||
                exists k :: 0 <= k < |modules| && modules[k].result == 2 && forall i :: 0 <= i < k ==> modules[i].result == 0))
  {
    hide PhaseActs, ChainActs, Deliveries;
    PhaseCounts(modules, env, response);
    ChainCounts(modules, env);
    var k := FirstStop(modules);
    if j :| 0 <= j < |modules| && modules[j].result == 2 && forall i :: 0 <= i < j ==> modules[i].result == 0 {
      assert k == j;
    }
  }

  /** How many final replies the client gets, in every case. */
  lemma {:induction false} ReplyCount(modules: seq<Module>, env: Env, response: bool)
    requires env.flush == 0 || env.flush == -1
    ensures var n := Sends(PhaseActs(modules, env, response));
            var k := FirstStop(modules);
            n == if ReachesDelivery(modules) then
                   (if env.flush != 0 then 0
                    else if env.nexthop.None? || env.nexthop.value in [0, 1, -1] then 1
                    else 2)
                 else if modules[k].result == -1 && env.moduleFail != 2 && env.moduleFail != 3 then 0
                 else 1
  {
    hide PhaseActs, ChainActs, Sends, HandlerReplies;
    PhaseCounts(modules, env, response);
    ChainCounts(modules, env);
    var k := FirstStop(modules);
    if k < |modules| {
      HandlerCounts(env.moduleFail, modules[k].response, modules[k].result);
    }
  }

  /** The nexthop is called and its result is none of those for which the engine keeps quiet
      behind the nexthop's error reply, or that mean success. */
  predicate AnsweredTwice(modules: seq<Module>, env: Env) {
    ReachesDelivery(modules) && env.flush == 0 && env.nexthop.Some? && env.nexthop.value !in [0, 1, -1]
  }

  /** At most one reply is sent exactly when it is not that. */
  lemma {:induction false} AtMostOneReply(modules: seq<Module>, env: Env, response: bool)
    requires env.flush == 0 || env.flush == -1
    ensures Sends(PhaseActs(modules, env, response)) <= 1 <==> !AnsweredTwice(modules, env)
  {
    hide PhaseActs, Sends;
    ReplyCount(modules, env, response);
  }

  /** If module failures are answered and the flush succeeds, there is exactly one reply unless
      there are two. */
  lemma {:induction false} ExactlyOneReply(modules: seq<Module>, env: Env, response: bool)
    requires env.moduleFail == 2 || env.moduleFail == 3
    requires env.flush == 0
    ensures Sends(PhaseActs(modules, env, response)) == 1 <==> !AnsweredTwice(modules, env)
    ensures AnsweredTwice(modules, env) ==> Sends(PhaseActs(modules, env, response)) == 2
  {
    hide PhaseActs, Sends;
    ReplyCount(modules, env, response);
  }

  /** When the engine reports success of its own, and when it does so although the nexthop has
      not taken the message. */
  lemma {:induction false} OwnReplyMeansDelivered(modules: seq<Module>, env: Env)
    requires env.flush == 0 || env.flush == -1
    ensures var ret := ChainResult(modules, env);
            var delivered := ReachesDelivery(modules) && env.flush == 0 && (env.nexthop.None? || env.nexthop.value == 0);
            (ret != -1 && ret != 1 <==> delivered || AnsweredTwice(modules, env)) && !(delivered && AnsweredTwice(modules, env))
  {
    hide FirstStop;
  }

  /** A module that fails under module_fail 1 ends the phase without any reply. */
  lemma {:induction false} IgnoredFailureIsSilent(modules: seq<Module>, env: Env, response: bool)
    requires env.flush == 0 || env.flush == -1
    requires FirstStop(modules) < |modules| && modules[FirstStop(modules)].result == -1 && env.moduleFail == 1
    ensures Sends(PhaseActs(modules, env, response)) == 0
    ensures Deliveries(PhaseActs(modules, env, response)) == 0
  {
    hide PhaseActs, ChainActs, Sends, Deliveries, FirstStop;
    ReplyCount(modules, env, response);
    PhaseCounts(modules, env, response);
    ChainCounts(modules, env);
  }

  // ---------------------------------------------------------------- module header

  function Names(modules: seq<Module>): (r: seq<string>)
    ensures |r| == |modules|
  {
    if modules == [] then [] else Names(modules[..|modules| - 1]) + [modules[|modules| - 1].name]
  }

  function NameList(names: seq<string>): string {
    if names == [] then ""
    else if |names| == 1 then names[0]
    else NameList(names[..|names| - 1]) + ", " + names[|names| - 1]
  }

  /** What is listed before the last module: all names so far, each with its separator. */
  lemma {:induction false} HeaderSoFar(modules: seq<Module>, k: nat)
    requires 0 < k < |modules|
    ensures ModuleHeader(modules, k) == TITLE + NameList(Names(modules[..k])) + ", "
  {
    assert modules[..k][..k - 1] == modules[..k - 1];
    var names := Names(modules[..k]);
    assert names == Names(modules[..k - 1]) + [modules[k - 1].name];
    assert names[..k - 1] == Names(modules[..k - 1]);
    if k > 1 {
      HeaderSoFar(modules, k - 1);
    }
  }

  lemma {:induction false} JoinLast(modules: seq<Module>)
    requires modules != []
    ensures var k := |modules| - 1;
            NameList(Names(modules)) ==
            if k == 0 then modules[0].name else NameList(Names(modules[..k])) + ", " + modules[k].name
  {
    var k := |modules| - 1;
    assert Names(modules)[..k] == Names(modules[..k]);
  }

  lemma {:induction false} HeaderLast(modules: seq<Module>)
    requires modules != []
    ensures var k := |modules| - 1;
            ModuleHeader(modules, k + 1) == (if k == 0 then TITLE else ModuleHeader(modules, k)) + modules[k].name
  {
  }

  lemma {:induction false} Regroup(a: string, b: string, c: string, d: string)
    ensures (a + b + c) + d == a + (b + c + d)
  {
  }

  lemma {:induction false} HeaderOfAll(modules: seq<Module>)
    requires modules != []
    ensures ModuleHeader(modules, |modules|) == TITLE + NameList(Names(modules))
  {
    hide *;
    var k := |modules| - 1;
    JoinLast(modules);
    HeaderLast(modules);
    if k > 0 {
      HeaderSoFar(modules, k);
      Regroup(TITLE, NameList(Names(modules[..k])), ", ", modules[k].name);
    }
  }

  /** If every module ran, the header is their comma-separated list; if a 2 stopped the chain
      behind at least one module, the list of those that finished ends in a separator. */
  lemma {:induction false} HeaderLists(modules: seq<Module>)
    requires modules != []
    ensures var k := FirstStop(modules);
            ModuleHeader(modules, k) ==
            TITLE + NameList(Names(modules[..k])) + if 0 < k < |modules| then ", " else ""
  {
    var k := FirstStop(modules);
    hide FirstStop, TITLE;
    if k == |modules| {
      assert modules[..k] == modules;
      HeaderOfAll(modules);
      assert TITLE + NameList(Names(modules)) + "" == TITLE + NameList(Names(modules));
    } else if k > 0 {
      HeaderSoFar(modules, k);
    } else {
      assert modules[..0] == [] && NameList(Names([])) == "";
      assert TITLE + "" + "" == TITLE;
    }
  }

  /** The text of a header of all modules, spelled out. */
  lemma {:induction false} HeaderText(modules: seq<Module>)
    requires |modules| == 3 && forall i :: 0 <= i < 3 ==> modules[i].result == 0
    ensures ModuleHeader(modules, FirstStop(modules)) ==
            "X-Spmfilter: " + modules[0].name + ", " + modules[1].name + ", " + modules[2].name
  {
    assert FirstStop(modules) == 3;
    assert ModuleHeader(modules, 1) == TITLE + modules[0].name + ", ";
    assert ModuleHeader(modules, 2) == TITLE + modules[0].name + ", " + modules[1].name + ", ";
    assert ModuleHeader(modules, 3) == ModuleHeader(modules, 2) + modules[2].name;
  }

  // ---------------------------------------------------------------- end of a DATA command

  /** A message over the configured size is refused; a size of 0 means no limit. */
  predicate TooBig(size: nat, maxSize: nat) {
    size > maxSize && maxSize != 0
  }

  /** Whether the message could be spooled: a path was found, and the file could be opened. */
  datatype Place = NoPath | NoFile | Spooled

  /** A DATA phase from the spool file on; `parsed` is the outcome of reading it back. */
  method FinishData(
    place: Place, size: nat, maxSize: nat, parsed: bool, modules: seq<Module>, env: Env, response: bool)
    returns (acts: seq<Act>)
    requires env.flush == 0 || env.flush == -1
    ensures acts == FinalActs(place, size, maxSize, parsed, modules, env, response)
  {
    if place.NoPath? {
      return [Send(Standard(552))];
    }
    if place.NoFile? {
      return [Send(Standard(451))];
    }
    if size > maxSize && maxSize != 0 {
      acts := [Send(Custom(552))];
    } else {
      if !parsed {
        return [Send(Standard(451))];
      }
      acts := ProcessModules(modules, env, response);
    }
  }

  function FinalActs(
    place: Place, size: nat, maxSize: nat, parsed: bool, modules: seq<Module>, env: Env, response: bool): seq<Act>
  {
    if place.NoPath? then [Send(Standard(552))]
    else if place.NoFile? then [Send(Standard(451))]
    else if TooBig(size, maxSize) then [Send(Custom(552))]
    else if !parsed then [Send(Standard(451))]
    else PhaseActs(modules, env, response)
  }

  /** A message that is refused reaches no module and is answered once. */
  predicate Refused(place: Place, size: nat, maxSize: nat, parsed: bool) {
    place != Spooled || TooBig(size, maxSize) || !parsed
  }

  /** How often a DATA command is answered, whatever the settings and outcomes: a refused
      message once, any other as often as its module phase replies. */
  lemma {:induction false} DataAnswers(
    place: Place, size: nat, maxSize: nat, parsed: bool, modules: seq<Module>, env: Env, response: bool)
    ensures var acts := FinalActs(place, size, maxSize, parsed, modules, env, response);
            if Refused(place, size, maxSize, parsed) then Sends(acts) == 1 && Invoked(acts) == [] && Deliveries(acts) == 0
            else Sends(acts) == Sends(PhaseActs(modules, env, response))
  {
    hide PhaseActs, Sends, Invoked, Deliveries;
    CountsOne(Send(Custom(552)));
    CountsOne(Send(Standard(451)));
    CountsOne(Send(Standard(552)));
  }

  /** If module failures are answered and the flush succeeds, every DATA command is answered
      once unless a nexthop's result makes it twice; a message that is refused reaches no
      module. */
  lemma {:induction false} DataAnsweredOnce(
    place: Place, size: nat, maxSize: nat, parsed: bool, modules: seq<Module>, env: Env, response: bool)
    requires env.moduleFail == 2 || env.moduleFail == 3
    requires env.flush == 0
    ensures var acts := FinalActs(place, size, maxSize, parsed, modules, env, response);
            var refused := Refused(place, size, maxSize, parsed);
            (Sends(acts) == 1 <==> refused || !AnsweredTwice(modules, env)) &&
            (refused ==> Invoked(acts) == [] && Deliveries(acts) == 0)
  {
    hide PhaseActs, FinalActs, Sends, Invoked, Deliveries, AnsweredTwice, Refused;
    DataAnswers(place, size, maxSize, parsed, modules, env, response);
    ExactlyOneReply(modules, env, response);
  }

  /** In every case: none exactly for a flush that failed or a module failure that is not
      answered. */
  lemma {:induction false} SilentExactly(
    place: Place, size: nat, maxSize: nat, parsed: bool, modules: seq<Module>, env: Env, response: bool)
    requires env.flush == 0 || env.flush == -1
    ensures Sends(FinalActs(place, size, maxSize, parsed, modules, env, response)) == 0 <==>
            !Refused(place, size, maxSize, parsed) &&
            if ReachesDelivery(modules) then env.flush != 0
            else modules[FirstStop(modules)].result == -1 && env.moduleFail != 2 && env.moduleFail != 3
  {
    hide PhaseActs, FinalActs, Sends, Refused;
    DataAnswers(place, size, maxSize, parsed, modules, env, response);
    ReplyCount(modules, env, response);
  }

  /** The result of the loop: a failed module fails it, unless module_fail is 1, and any other
      early stop gives 1, like a nexthop that gives 1. */
  lemma {:induction false} QueueResult(modules: seq<Module>, env: Env)
    requires env.flush == 0 || env.flush == -1
    ensures var k := FirstStop(modules);
            ChainResult(modules, env) ==
            if k < |modules| && modules[k].result == -1 then (if env.moduleFail == 1 then 1 else -1)
            else if k < |modules| && modules[k].result != 2 then 1
            else if env.flush == -1 then -1
            else if env.nexthop.None? then 0
            else env.nexthop.value
  {
    hide FirstStop;
    if !ReachesDelivery(modules) {
      assert modules[FirstStop(modules)].result != 0;
    }
  }

  /** A chain that is stopped runs no further, neither flushes nor delivers, and ends in one
      answer at most, by the result of its last module. */
  lemma {:induction false} StoppedChain(modules: seq<Module>, env: Env, response: bool)
    requires var k := FirstStop(modules); k < |modules| && modules[k].result != 2
    ensures var k := FirstStop(modules);
            var result, custom := modules[k].result, modules[k].response;
            PhaseActs(modules, env, response) ==
            Invocations(k + 1) +
            if result == -1 then
              (if env.moduleFail == 2 then [Send(Standard(552))] else if env.moduleFail == 3 then [Send(Standard(451))] else [])
            else if result == 1 then [Send(if custom then Custom(250) else Standard(250))]
            else [Send(if custom then Custom(result) else Standard(result))]
  {
    hide FirstStop, Invocations, PhaseActs;
    StoppedActs(modules, env, response);
  }

  lemma {:induction false} StoppedResult(modules: seq<Module>, env: Env)
    requires var k := FirstStop(modules); k < |modules| && modules[k].result != 2
    ensures ChainResult(modules, env) == -1 || ChainResult(modules, env) == 1
  {
    hide FirstStop, HandlerCode;
  }

  lemma {:induction false} NoMore(acts: seq<Act>)
    ensures acts + [] == acts
  {
  }

  lemma {:induction false} ChainUnfolded(modules: seq<Module>, env: Env)
    requires var k := FirstStop(modules); k < |modules| && modules[k].result != 2
    ensures var k := FirstStop(modules);
            ChainActs(modules, env) ==
            Invocations(k + 1) + HandlerReplies(env.moduleFail, modules[k].response, modules[k].result) + []
  {
    hide FirstStop, Invocations, HandlerReplies, DeliveryActs;
  }

  lemma {:induction false} StoppedActs(modules: seq<Module>, env: Env, response: bool)
    requires var k := FirstStop(modules); k < |modules| && modules[k].result != 2
    ensures var k := FirstStop(modules);
            PhaseActs(modules, env, response) ==
            Invocations(k + 1) + HandlerReplies(env.moduleFail, modules[k].response, modules[k].result)
  {
    hide FirstStop, Invocations, HandlerReplies, ChainActs, ChainResult;
    StoppedResult(modules, env);
    ChainUnfolded(modules, env);
    var k := FirstStop(modules);
    NoMore(Invocations(k + 1) + HandlerReplies(env.moduleFail, modules[k].response, modules[k].result));
    NoMore(ChainActs(modules, env));
  }

  // ---------------------------------------------------------------- what the client is told

  /** The replies that are sent, in order. */
  function Replies(acts: seq<Act>): seq<Reply> {
    if acts == [] then []
    else (if acts[0].Send? then [acts[0].reply] else []) + Replies(acts[1..])
  }

  lemma {:induction false} RepliesAppend(a: seq<Act>, b: seq<Act>)
    ensures Replies(a + b) == Replies(a) + Replies(b)
  {
    if a == [] {
      assert a + b == b;
    } else {
      assert (a + b)[0] == a[0] && (a + b)[1..] == a[1..] + b;
      RepliesAppend(a[1..], b);
    }
  }

  lemma {:induction false} RepliesOne(x: Act)
    ensures Replies([x]) == (if x.Send? then [x.reply] else []) && Replies([]) == []
  {
    assert [x][1..] == [];
  }

  lemma {:induction false} RepliesNone(n: nat)
    ensures Replies(Invocations(n)) == []
  {
    if n > 0 {
      RepliesNone(n - 1);
      assert Invocations(n) == Invocations(n - 1) + [Invoke(n - 1)];
      RepliesAppend(Invocations(n - 1), [Invoke(n - 1)]);
      RepliesOne(Invoke(n - 1));
    }
  }

  /** Every reply of the module phase, with its code: of a stopped chain by the result of its
      last module, of a delivery by that of the nexthop, whose error comes first. */
  lemma {:induction false} PhaseReplies(modules: seq<Module>, env: Env, response: bool)
    requires env.flush == 0 || env.flush == -1
    ensures var k := FirstStop(modules);
            var own := if response then Custom(250) else Standard(250);
            Replies(PhaseActs(modules, env, response)) ==
            if k < |modules| && modules[k].result == -1 then
              (if env.moduleFail == 2 then [Standard(552)] else if env.moduleFail == 3 then [Standard(451)] else [])
            else if k < |modules| && modules[k].result == 1 then [if modules[k].response then Custom(250) else Standard(250)]
            else if k < |modules| && modules[k].result != 2 then
              [if modules[k].response then Custom(modules[k].result) else Standard(modules[k].result)]
            else if env.flush != 0 then []
            else if env.nexthop.None? || env.nexthop.value == 0 then [own]
            else if env.nexthop.value == 1 || env.nexthop.value == -1 then [Custom(env.nexthopFailCode)]
            else [Custom(env.nexthopFailCode), own]
  {
    hide FirstStop, Invocations, Replies, PhaseActs;
    var k := FirstStop(modules);
    if k < |modules| && modules[k].result != 2 {
      StoppedReplies(modules, env, response);
    } else {
      DeliveredReplies(modules, env, response);
    }
  }

  lemma {:induction false} StoppedReplies(modules: seq<Module>, env: Env, response: bool)
    requires var k := FirstStop(modules); k < |modules| && modules[k].result != 2
    ensures var k := FirstStop(modules);
            Replies(PhaseActs(modules, env, response)) ==
            if modules[k].result == -1 then
              (if env.moduleFail == 2 then [Standard(552)] else if env.moduleFail == 3 then [Standard(451)] else [])
            else if modules[k].result == 1 then [if modules[k].response then Custom(250) else Standard(250)]
            else [if modules[k].response then Custom(modules[k].result) else Standard(modules[k].result)]
  {
    hide FirstStop, Invocations, PhaseActs, HandlerReplies;
    StoppedChain(modules, env, response);
    var k := FirstStop(modules);
    var result, custom := modules[k].result, modules[k].response;
    var answer: seq<Act> :=
      if result == -1 then
        (if env.moduleFail == 2 then [Send(Standard(552))] else if env.moduleFail == 3 then [Send(Standard(451))] else [])
      else if result == 1 then [Send(if custom then Custom(250) else Standard(250))]
      else [Send(if custom then Custom(result) else Standard(result))];
    BehindInvocations(k + 1, answer);
    assert answer != [] ==> answer == [answer[0]];
    assert answer != [] ==> answer[1..] == [];
  }

  lemma {:induction false} BehindInvocations(n: nat, acts: seq<Act>)
    ensures Replies(Invocations(n) + acts) == Replies(acts)
  {
    hide Invocations, Replies;
    RepliesNone(n);
    RepliesAppend(Invocations(n), acts);
    assert [] + Replies(acts) == Replies(acts);
  }

  lemma {:induction false} DeliveredReplies(modules: seq<Module>, env: Env, response: bool)
    requires env.flush == 0 || env.flush == -1
    requires ReachesDelivery(modules)
    ensures var own := if response then Custom(250) else Standard(250);
            Replies(PhaseActs(modules, env, response)) ==
            if env.flush != 0 then []
            else if env.nexthop.None? || env.nexthop.value == 0 then [own]
            else if env.nexthop.value == 1 || env.nexthop.value == -1 then [Custom(env.nexthopFailCode)]
            else [Custom(env.nexthopFailCode), own]
  {
    hide FirstStop, Invocations, Replies, ChainActs, DeliveryActs, HandlerReplies;
    var k := FirstStop(modules);
    var own := if response then Custom(250) else Standard(250);
    RepliesOne(Send(own));
    DeliveryReplies(env);
    ChainReplies(modules, env);
    var chain := ChainActs(modules, env);
    RepliesAppend(chain, [Send(own)]);
    assert chain + [] == chain;
  }

  lemma {:induction false} ChainReplies(modules: seq<Module>, env: Env)
    requires ReachesDelivery(modules)
    ensures Replies(ChainActs(modules, env)) == Replies(DeliveryActs(env))
  {
    hide FirstStop, Invocations, Replies, DeliveryActs;
    var k := FirstStop(modules);
    var n := if k == |modules| then k else k + 1;
    RepliesNone(n);
    assert Invocations(n) + [] == Invocations(n);
    RepliesAppend(Invocations(n), DeliveryActs(env));
    assert [] + Replies(DeliveryActs(env)) == Replies(DeliveryActs(env));
  }

  lemma {:induction false} DeliveryReplies(env: Env)
    ensures Replies(DeliveryActs(env)) ==
            if env.flush == 0 && env.nexthop.Some? && env.nexthop.value != 0 then [Custom(env.nexthopFailCode)] else []
  {
    RepliesOne(Flush);
    if env.flush == 0 && env.nexthop.Some? {
      var d, e := Deliver(env.nexthop.value), Send(Custom(env.nexthopFailCode));
      RepliesOne(d);
      RepliesOne(e);
      hide Replies;
      RepliesAppend([Flush], [d]);
      RepliesAppend([Flush] + [d], [e]);
      assert DeliveryActs(env) == if env.nexthop.value != 0 then [Flush] + [d] + [e] else [Flush] + [d];
    } else {
      assert DeliveryActs(env) == [Flush];
    }
  }

  /** Every reply of a DATA command from its spool file on. */
  lemma {:induction false} FinalReplies(
    place: Place, size: nat, maxSize: nat, parsed: bool, modules: seq<Module>, env: Env, response: bool)
    ensures Replies(FinalActs(place, size, maxSize, parsed, modules, env, response)) ==
            if place == NoPath then [Standard(552)]
            else if place == NoFile then [Standard(451)]
            else if maxSize != 0 && size > maxSize then [Custom(552)]
            else if !parsed then [Standard(451)]
            else Replies(PhaseActs(modules, env, response))
  {
    RepliesOne(Send(Standard(552)));
    RepliesOne(Send(Standard(451)));
    RepliesOne(Send(Custom(552)));
    hide Replies, PhaseActs;
  }

  lemma {:induction false} DeliveryLast(modules: seq<Module>, env: Env) returns (front: seq<Act>)
    requires ReachesDelivery(modules)
    ensures ChainActs(modules, env) == front + DeliveryActs(env)
  {
    hide FirstStop, Invocations, HandlerReplies, DeliveryActs;
    var k := FirstStop(modules);
    front := Invocations(if k == |modules| then k else k + 1);
    if k < |modules| {
      front := front + HandlerReplies(env.moduleFail, modules[k].response, modules[k].result);
    }
  }

  /** Success is only reported after the nexthop has taken the message. */
  lemma {:induction false} DeliveredThenAnswered(modules: seq<Module>, env: Env, response: bool)
    requires ReachesDelivery(modules) && env.flush == 0 && env.nexthop == Some(0)
    ensures var acts := PhaseActs(modules, env, response);
            |acts| >= 3 && acts[|acts| - 3..] == [Flush, Deliver(0), Send(if response then Custom(250) else Standard(250))]
  {
    hide ReachesDelivery, ChainActs;
    var front := DeliveryLast(modules, env);
    assert DeliveryActs(env) == [Flush, Deliver(0)];
    var reply := Send(if response then Custom(250) else Standard(250));
    assert PhaseActs(modules, env, response) == front + [Flush, Deliver(0)] + [reply] == front + [Flush, Deliver(0), reply];
  }
}
