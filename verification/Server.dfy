/** The prefork server: shared counters, slot tables and the parent/child protocol. */

/** The two pid tables are C int arrays in which 0 marks a free slot. */
module Slots {

  /** The table after the first slot holding `from` has been overwritten with `to`. */
  function Replace(s: seq<int>, from: int, to: int): (r: seq<int>)
    ensures |r| == |s|
  {
    if s == [] then []
    else if s[0] == from then [to] + s[1..]
    else [s[0]] + Replace(s[1..], from, to)
  }

  /** One copy of `from` becomes one copy of `to`; without a `from` nothing changes. */
  lemma {:induction false} ReplaceCounts(s: seq<int>, from: int, to: int)
    ensures multiset(Replace(s, from, to)) ==
            if from in s then multiset(s) - multiset{from} + multiset{to} else multiset(s)
  {
    if s != [] {
      assert s == [s[0]] + s[1..];
      if s[0] != from {
        ReplaceCounts(s[1..], from, to);
      }
    }
  }

  lemma {:induction false} ReplaceCount(s: seq<int>, from: int, to: int, p: int)
    requires from in s
    ensures multiset(Replace(s, from, to))[p] ==
            multiset(s)[p] - (if p == from then 1 else 0) + (if p == to then 1 else 0)
  {
    ReplaceCounts(s, from, to);
    assert from in multiset(s);
  }

  lemma {:induction false} ReplaceAt(s: seq<int>, i: nat, from: int, to: int)
    requires i < |s| && s[i] == from && from !in s[..i]
    ensures Replace(s, from, to) == s[i := to]
  {
    if i > 0 {
      assert s[0] in s[..i];
      assert s[1..][..i - 1] == s[..i][1..];
      ReplaceAt(s[1..], i - 1, from, to);
    }
  }

  lemma {:induction false} ReplaceAbsent(s: seq<int>, from: int, to: int)
    requires from !in s
    ensures Replace(s, from, to) == s
  {
    if s != [] {
      ReplaceAbsent(s[1..], from, to);
    }
  }

  /** The search loop shared by the three table updates of the server. */
  method ReplaceFirst(a: array<int>, n: nat, from: int, to: int) returns (found: bool)
    requires n <= a.Length
    modifies a
    ensures a[..n] == Replace(old(a[..n]), from, to)
    ensures a[n..] == old(a[n..])
    ensures found <==> from in old(a[..n])
  {
    ghost var before := a[..n];
    var i := 0;
    while i < n
      invariant 0 <= i <= n
      invariant a[..] == old(a[..])
      invariant from !in before[..i]
    {
      if a[i] == from {
        ReplaceAt(before, i, from, to);
        a[i] := to;
        return true;
      }
      i := i + 1;
    }
    ReplaceAbsent(before, from, to);
    return false;
  }
}

module Server {
  import opened Slots

  const CHILD_LIMIT := 1024

  // ---------------------------------------------------------------- shared memory

  /** What the shared memory holds: the counters and the used part of both pid tables. */
  datatype Shared = Shared(numProcs: int, numSpare: int, childs: seq<int>, active: seq<int>) {
    function AddChild(pid: int): Shared {
      Shared(numProcs + 1, numSpare + 1, Replace(childs, 0, pid), active)
    }

    function DecrementSpare(): Shared {
      this.(numSpare := numSpare - 1)
    }

    function AddActive(pid: int): Shared {
      this.(active := Replace(active, 0, pid))
    }

    /** First locked section of a removal. */
    function RemoveActive(pid: int): Shared {
      Shared(numProcs - 1, numSpare, Replace(childs, pid, 0), Replace(active, pid, 0))
    }
  }

  /** The shared segment itself; every method is one section under the semaphore. */
  class Counters {
    var numProcs: int
    var numSpare: int
    const maxChilds: int
    const childsActive: array<int>
    const childs: array<int>

    ghost predicate Valid()
      reads this
    {
      maxChilds <= CHILD_LIMIT && childs != childsActive &&
      childs.Length == childsActive.Length == CHILD_LIMIT
    }

    function Used(): nat
      requires maxChilds <= CHILD_LIMIT
      ensures Used() <= CHILD_LIMIT
    {
      SlotCount(maxChilds)
    }

    ghost function View(): Shared
      requires Valid()
      reads this, childs, childsActive
    {
      Shared(numProcs, numSpare, childs[..Used()], childsActive[..Used()])
    }

    constructor (maxChilds: int)
      requires maxChilds <= CHILD_LIMIT
      ensures Valid() && fresh(childs) && fresh(childsActive)
      ensures this.maxChilds == maxChilds
      ensures View() == Blank(maxChilds)
    {
      this.maxChilds := maxChilds;
      numProcs, numSpare := 0, 0;
      childs := new int[CHILD_LIMIT];
      childsActive := new int[CHILD_LIMIT];
      new;
      var i := 0;
      while i < maxChilds
        invariant 0 <= i <= SlotCount(maxChilds)
        invariant forall k :: 0 <= k < i ==> childs[k] == 0 && childsActive[k] == 0
        invariant numProcs == 0 && numSpare == 0
      {
        childsActive[i] := 0;
        childs[i] := 0;
        i := i + 1;
      }
    }

    method AddChild(pid: int)
      requires Valid()
      modifies this, childs
      ensures Valid() && View() == old(View()).AddChild(pid)
    {
      numProcs := numProcs + 1;
      numSpare := numSpare + 1;
      var _ := ReplaceFirst(childs, Used(), 0, pid);
    }

    method DecrementSpare()
      requires Valid()
      modifies this
      ensures Valid() && View() == old(View()).DecrementSpare()
    {
      numSpare := numSpare - 1;
    }

    method AddActive(pid: int)
      requires Valid()
      modifies childsActive
      ensures Valid() && View() == old(View()).AddActive(pid)
    {
      var _ := ReplaceFirst(childsActive, Used(), 0, pid);
    }

    /** `removed` reports whether the pid had registered as active. */
    method RemoveActive(pid: int) returns (removed: bool)
      requires Valid()
      modifies this, childs, childsActive
      ensures Valid() && View() == old(View()).RemoveActive(pid)
      ensures removed <==> pid in old(View()).active
    {
      numProcs := numProcs - 1;
      removed := ReplaceFirst(childsActive, Used(), pid, 0);
      var _ := ReplaceFirst(childs, Used(), pid, 0);
    }
  }

  function SlotCount(maxChilds: int): nat {
    if maxChilds < 0 then 0 else maxChilds
  }

  function Blank(maxChilds: int): Shared {
    var empty := seq(SlotCount(maxChilds), _ => 0);
    Shared(0, 0, empty, empty)
  }

  // ---------------------------------------------------------------- protocol

  datatype Config = Config(maxChilds: int, spareChilds: int)

  /** Where a child stands between its two locked sections. */
  datatype Phase = Idle | Taken | Active

  datatype Child = Child(phase: Phase, alive: bool)

  /** Which loop of the parent asked for a fork. */
  datatype Loop = Prefork(i: int) | Refill

  datatype Pc =
    | Fork(loop: Loop)
    | Add(pid: int, loop: Loop)
    | Wait
    | Reap(pid: int)
    | Lost
    | TestProcs
    | TestSpare
    | TestSecond
    | Stopped

  /** `kids` are the forked children the parent has not removed yet. The last six fields only
      count: failed forks, children that died between their two sections, children for which
      the spare counter was decremented twice, registrations, removals and spare decrements. */
  datatype Sys = Sys(
    mem: Shared,
    kids: map<int, Child>,
    pc: Pc,
    failed: nat,
    torn: nat,
    twice: nat,
    registered: nat,
    removed: nat,
    decrements: nat)

  datatype Action =
    | ForkOk(pid: int)
    | ForkFail
    | Register
    | Take(pid: int)
    | Activate(pid: int)
    | Die(pid: int)
    | WaitPid(pid: int)
    | Wake
    | Stop
    | Remove
    | DropLost
    | ReadProcs
    | ReadSpare
    | ReadSecond

  /** One child is forked even when no spare children are configured. */
  function PreforkTotal(c: Config): int {
    if c.spareChilds == 0 then 1 else c.spareChilds
  }

  function Init(c: Config): Sys {
    Sys(Blank(c.maxChilds), map[], if 0 < PreforkTotal(c) then Fork(Prefork(0)) else Wait, 0, 0, 0, 0, 0, 0)
  }

  function Resume(c: Config, loop: Loop): Pc {
    match loop
    case Prefork(i) => if i + 1 < PreforkTotal(c) then Fork(Prefork(i + 1)) else Wait
    case Refill => TestProcs
  }

  predicate Enabled(s: Sys, a: Action) {
    match a
    case ForkOk(pid) => s.pc.Fork? && 0 < pid && pid !in s.kids
    case ForkFail => s.pc.Fork?
    case Register => s.pc.Add?
    case Take(pid) => pid in s.kids && s.kids[pid] == Child(Idle, true)
    case Activate(pid) => pid in s.kids && s.kids[pid] == Child(Taken, true)
    case Die(pid) => pid in s.kids && s.kids[pid].alive
    case WaitPid(pid) => s.pc.Wait? && pid in s.kids && !s.kids[pid].alive
    case Wake => s.pc.Wait?
    case Stop => s.pc.Wait?
    case Remove => s.pc.Reap? && s.pc.pid in s.kids
    case DropLost => s.pc.Lost?
    case ReadProcs => s.pc.TestProcs?
    case ReadSpare => s.pc.TestSpare?
    case ReadSecond => s.pc.TestSecond?
  }

  function Apply(c: Config, s: Sys, a: Action): Sys
    requires Enabled(s, a)
  {
    match a
    case ForkOk(pid) => s.(kids := s.kids[pid := Child(Idle, true)], pc := Add(pid, s.pc.loop))
    case ForkFail => s.(pc := Add(-1, s.pc.loop))
    case Register =>
      s.(mem := s.mem.AddChild(s.pc.pid), pc := Resume(c, s.pc.loop),
         failed := if s.pc.pid == -1 then s.failed + 1 else s.failed,
         registered := s.registered + 1)
    case Take(pid) =>
      s.(mem := s.mem.DecrementSpare(), kids := s.kids[pid := Child(Taken, true)],
         decrements := s.decrements + 1)
    case Activate(pid) =>
      s.(mem := s.mem.AddActive(pid), kids := s.kids[pid := Child(Active, true)])
    case Die(pid) =>
      s.(kids := s.kids[pid := Child(s.kids[pid].phase, false)],
         torn := if s.kids[pid].phase.Taken? then s.torn + 1 else s.torn)
    case WaitPid(pid) => s.(pc := Reap(pid))
    case Wake => s.(pc := TestProcs)
    case Stop => s.(pc := Stopped)
    case Remove =>
      var pid := s.pc.pid;
      var found := pid in s.mem.active;
      s.(mem := s.mem.RemoveActive(pid), kids := s.kids - {pid},
         pc := if found then TestProcs else Lost,
         twice := if !found && !s.kids[pid].phase.Idle? then s.twice + 1 else s.twice,
         removed := s.removed + 1)
    case DropLost =>
      s.(mem := s.mem.DecrementSpare(), pc := TestProcs, decrements := s.decrements + 1)
    case ReadProcs => s.(pc := if s.mem.numProcs < c.maxChilds then TestSpare else Wait)
    case ReadSpare => s.(pc := if s.mem.numSpare < c.spareChilds then Fork(Refill) else TestSecond)
    case ReadSecond => s.(pc := if s.mem.numProcs < s.mem.numSpare then Fork(Refill) else Wait)
  }

  /** The state after an interleaving, if every action in it was possible. */
  ghost predicate Reaches(c: Config, acts: seq<Action>, s: Sys)
    decreases |acts|
  {
    if acts == [] then s == Init(c)
    else
      var k := |acts| - 1;
      exists t :: Reaches(c, acts[..k], t) && Enabled(t, acts[k]) && s == Apply(c, t, acts[k])
  }

  // ---------------------------------------------------------------- invariant

  /** Children that have decremented the spare counter. */
  function Took(kids: map<int, Child>): set<int> {
    set p | p in kids && !kids[p].phase.Idle?
  }

  function ActiveSet(kids: map<int, Child>): set<int> {
    set p | p in kids && kids[p].phase.Active?
  }

  /** 1 while a forked child is not registered yet. */
  function Adding(pc: Pc): int {
    if pc.Add? && pc.pid != -1 then 1 else 0
  }

  /** 1 while a lost spare child has been removed but not yet subtracted. */
  function LostPending(pc: Pc): int {
    if pc.Lost? then 1 else 0
  }

  function Limit(c: Config): int {
    var m := if c.maxChilds < c.spareChilds then c.spareChilds else c.maxChilds;
    if m < 1 then 1 else m
  }

  predicate PcOk(c: Config, s: Sys) {
    match s.pc
    case Fork(Prefork(i)) => 0 <= i < PreforkTotal(c) && s.mem.numProcs == i
    case Fork(Refill) => s.mem.numProcs < c.maxChilds
    case Add(pid, loop) =>
      (pid == -1 || pid in s.kids) &&
      (match loop
       case Prefork(i) => 0 <= i < PreforkTotal(c) && s.mem.numProcs == i
       case Refill => s.mem.numProcs < c.maxChilds)
    case Reap(pid) => pid in s.kids && !s.kids[pid].alive
    case TestSpare => s.mem.numProcs < c.maxChilds
    case TestSecond => s.mem.numProcs < c.maxChilds
    case _ => true
  }

  ghost predicate ActiveTableOk(s: Sys) {
    forall p :: p in s.mem.active && p != 0 ==>
      p in s.kids && s.kids[p].phase.Active? && multiset(s.mem.active)[p] == 1
  }

  ghost predicate Inv(c: Config, s: Sys) {
    CountersOk(c, s) && ActiveTableOk(s)
  }

  ghost predicate CountersOk(c: Config, s: Sys) {
    && (forall p :: p in s.kids ==> 0 < p)
    && PcOk(c, s)
    && |s.mem.childs| == |s.mem.active| == SlotCount(c.maxChilds)
    && s.mem.numProcs == |s.kids.Keys| - Adding(s.pc) + s.failed
    && s.mem.numSpare == s.mem.numProcs - |Took(s.kids)| - s.twice + LostPending(s.pc)
    && s.mem.numProcs <= Limit(c)
    && s.mem.numProcs == s.registered - s.removed
    && s.mem.numSpare == s.registered - s.decrements
  }

  lemma {:induction false} TookJoins(kids: map<int, Child>, p: int, child: Child)
    requires p !in Took(kids) && !child.phase.Idle?
    ensures |Took(kids[p := child])| == |Took(kids)| + 1
  {
    assert Took(kids[p := child]) == Took(kids) + {p};
  }

  lemma {:induction false} TookKept(kids: map<int, Child>, p: int, child: Child)
    requires p in Took(kids) <==> !child.phase.Idle?
    ensures Took(kids[p := child]) == Took(kids)
  {
  }

  lemma {:induction false} KidsWithout(kids: map<int, Child>, p: int)
    requires p in kids
    ensures |(kids - {p}).Keys| == |kids.Keys| - 1
    ensures |Took(kids - {p})| == |Took(kids)| - (if kids[p].phase.Idle? then 0 else 1)
    ensures ActiveSet(kids - {p}) == ActiveSet(kids) - {p}
  {
    assert (kids - {p}).Keys == kids.Keys - {p};
    assert Took(kids - {p}) == Took(kids) - {p};
  }

  lemma {:induction false} ActiveTableAdd(s: Sys, pid: int, t: Sys)
    requires ActiveTableOk(s) && Enabled(s, Activate(pid)) && 0 < pid
    requires t.mem.active == Replace(s.mem.active, 0, pid) && t.kids == s.kids[pid := Child(Active, true)]
    ensures ActiveTableOk(t)
  {
    ReplaceCounts(s.mem.active, 0, pid);
    assert pid !in s.mem.active;
    forall p | p in t.mem.active && p != 0
      ensures p in t.kids && t.kids[p].phase.Active? && multiset(t.mem.active)[p] == 1
    {
      assert p in multiset(t.mem.active);
      if p != pid {
        assert p in multiset(s.mem.active);
      } else {
        assert pid !in multiset(s.mem.active);
      }
    }
  }

  lemma {:induction false} ActiveTableRemove(s: Sys, pid: int, t: Sys)
    requires ActiveTableOk(s) && pid in s.kids && 0 < pid
    requires t.mem.active == Replace(s.mem.active, pid, 0) && t.kids == s.kids - {pid}
    ensures ActiveTableOk(t)
  {
    ReplaceCounts(s.mem.active, pid, 0);
    forall p | p in t.mem.active && p != 0
      ensures p in t.kids && t.kids[p].phase.Active? && multiset(t.mem.active)[p] == 1
    {
      assert p in multiset(t.mem.active);
      assert p in multiset(s.mem.active);
    }
  }

  lemma {:induction false} InitInv(c: Config)
    ensures Inv(c, Init(c))
  {
    var kids := Init(c).kids;
    assert kids.Keys == {} && Took(kids) == {};
  }

  lemma {:induction false} TookBounded(kids: map<int, Child>)
    ensures |Took(kids)| <= |kids.Keys|
  {
    SubsetSize(Took(kids), kids.Keys);
  }

  lemma {:induction false} SubsetSize<T>(a: set<T>, b: set<T>)
    requires a <= b
    ensures |a| <= |b|
    ensures |a| == |b| ==> a == b
    decreases a
  {
    if a != {} {
      var x :| x in a;
      SubsetSize(a - {x}, b - {x});
    }
  }

  lemma {:induction false} StepCounters(c: Config, s: Sys, a: Action)
    requires Inv(c, s) && Enabled(s, a)
    ensures CountersOk(c, Apply(c, s, a))
  {
    match a {
      case ForkOk(pid) => ForkCounters(c, s, pid);
      case Take(pid) => ChildCounters(c, s, a, pid, Child(Taken, true));
      case Activate(pid) => ChildCounters(c, s, a, pid, Child(Active, true));
      case Die(pid) => ChildCounters(c, s, a, pid, Child(s.kids[pid].phase, false));
      case Remove => RemoveCounters(c, s);
      case _ =>
    }
  }

  lemma {:induction false} ForkCounters(c: Config, s: Sys, pid: int)
    requires CountersOk(c, s) && Enabled(s, ForkOk(pid))
    ensures CountersOk(c, Apply(c, s, ForkOk(pid)))
  {
    TookKept(s.kids, pid, Child(Idle, true));
    assert s.kids[pid := Child(Idle, true)].Keys == s.kids.Keys + {pid};
  }

  lemma {:induction false} ChildCounters(c: Config, s: Sys, a: Action, pid: int, child: Child)
    requires CountersOk(c, s) && Enabled(s, a) && a in [Take(pid), Activate(pid), Die(pid)]
    requires Apply(c, s, a).kids == s.kids[pid := child]
    ensures CountersOk(c, Apply(c, s, a))
  {
    if a.Take? {
      TookJoins(s.kids, pid, child);
    } else {
      TookKept(s.kids, pid, child);
    }
    assert s.kids[pid := child].Keys == s.kids.Keys;
  }

  lemma {:induction false} RemoveCounters(c: Config, s: Sys)
    requires Inv(c, s) && Enabled(s, Remove)
    ensures CountersOk(c, Apply(c, s, Remove))
  {
    KidsWithout(s.kids, s.pc.pid);
  }

  lemma {:induction false} StepActiveTable(c: Config, s: Sys, a: Action)
    requires Inv(c, s) && Enabled(s, a)
    ensures ActiveTableOk(Apply(c, s, a))
  {
    match a {
      case Activate(pid) => ActiveTableAdd(s, pid, Apply(c, s, a));
      case Remove => ActiveTableRemove(s, s.pc.pid, Apply(c, s, a));
      case _ =>
    }
  }

  lemma {:induction false} StepInv(c: Config, s: Sys, a: Action)
    requires Inv(c, s) && Enabled(s, a)
    ensures Inv(c, Apply(c, s, a))
  {
    StepCounters(c, s, a);
    StepActiveTable(c, s, a);
  }

  /** The invariant holds after every interleaving, including failed forks and torn deaths. */
  lemma {:induction false} RunInv(c: Config, acts: seq<Action>, s: Sys)
    requires Reaches(c, acts, s)
    ensures Inv(c, s)
    decreases |acts|
  {
    if acts == [] {
      InitInv(c);
    } else {
      var k := |acts| - 1;
      var t :| Reaches(c, acts[..k], t) && Enabled(t, acts[k]) && s == Apply(c, t, acts[k]);
      RunInv(c, acts[..k], t);
      StepInv(c, t, acts[k]);
    }
  }

  // ---------------------------------------------------------------- slot tables

  /** The configuration leaves room for every child the parent starts. */
  predicate Roomy(c: Config) {
    1 <= c.maxChilds && c.spareChilds <= c.maxChilds
  }

  /** More children are preforked than the tables have slots. */
  predicate Crowded(c: Config) {
    SlotCount(c.maxChilds) < PreforkTotal(c)
  }

  /** How often `p` must occur in the child table. */
  function Expected(c: Config, s: Sys, p: int): int {
    if p == 0 then c.maxChilds - s.mem.numProcs
    else if p == -1 then s.failed
    else if p in s.kids && !(s.pc.Add? && s.pc.pid == p) then 1
    else 0
  }

  /** `childs` holds the registered children, once each, and a -1 for every failed fork. */
  ghost predicate ChildTableExact(c: Config, s: Sys) {
    forall p :: multiset(s.mem.childs)[p] == Expected(c, s, p)
  }

  /** `active` holds every child that finished its second section. */
  ghost predicate ActiveTableComplete(c: Config, s: Sys) {
    && (forall p :: p in ActiveSet(s.kids) ==> p in s.mem.active)
    && multiset(s.mem.active)[0] == c.maxChilds - |ActiveSet(s.kids)|
  }

  ghost predicate TablesExact(c: Config, s: Sys) {
    ChildTableExact(c, s) && ActiveTableComplete(c, s)
  }

  lemma {:induction false} ZerosCount(n: nat)
    ensures multiset(seq(n, _ => 0)) == multiset{}[0 := n]
  {
    if n > 0 {
      assert seq(n, _ => 0) == seq(n - 1, _ => 0) + [0];
      ZerosCount(n - 1);
    }
  }

  lemma {:induction false} InitTables(c: Config)
    requires Roomy(c)
    ensures TablesExact(c, Init(c))
  {
    ZerosCount(SlotCount(c.maxChilds));
    assert ActiveSet(Init(c).kids) == {};
  }

  lemma {:induction false} FreeChildSlot(c: Config, s: Sys)
    requires Roomy(c) && CountersOk(c, s) && ChildTableExact(c, s) && Enabled(s, Register)
    ensures 0 in s.mem.childs
  {
    assert multiset(s.mem.childs)[0] == Expected(c, s, 0);
  }

  lemma {:induction false} FreeActiveSlot(c: Config, s: Sys, pid: int)
    requires Roomy(c) && CountersOk(c, s) && ActiveTableComplete(c, s) && Enabled(s, Activate(pid))
    ensures 0 in s.mem.active
  {
    assert pid in s.kids.Keys && pid !in ActiveSet(s.kids);
    SubsetSize(ActiveSet(s.kids), s.kids.Keys);
    assert multiset(s.mem.active)[0] > 0;
  }

  lemma {:induction false} RegisterTables(c: Config, s: Sys)
    requires ChildTableExact(c, s) && Enabled(s, Register) && 0 in s.mem.childs
    requires s.pc.pid == -1 || (s.pc.pid in s.kids && 0 < s.pc.pid)
    ensures ChildTableExact(c, Apply(c, s, Register))
  {
    var t := Apply(c, s, Register);
    var pid := s.pc.pid;
    forall p
      ensures multiset(t.mem.childs)[p] == Expected(c, t, p)
    {
      ReplaceCount(s.mem.childs, 0, pid, p);
      assert multiset(s.mem.childs)[p] == Expected(c, s, p);
    }
  }

  lemma {:induction false} ActivateTables(c: Config, s: Sys, pid: int)
    requires ActiveTableComplete(c, s) && Enabled(s, Activate(pid)) && 0 in s.mem.active && 0 < pid
    requires 0 !in s.kids
    ensures ActiveTableComplete(c, Apply(c, s, Activate(pid)))
  {
    var t := Apply(c, s, Activate(pid));
    ActiveSetJoins(s.kids, pid);
    ActiveSlotTaken(s.mem.active, pid);
    forall p | p in ActiveSet(t.kids)
      ensures p in t.mem.active
    {
      assert p != pid ==> p in s.mem.active;
    }
  }

  lemma {:induction false} ActiveSetJoins(kids: map<int, Child>, pid: int)
    requires pid in kids && !kids[pid].phase.Active?
    ensures ActiveSet(kids[pid := Child(Active, true)]) == ActiveSet(kids) + {pid} && pid !in ActiveSet(kids)
  {
  }

  /** The table gains the pid, keeps all others, and has one free slot less. */
  lemma {:induction false} ActiveSlotTaken(active: seq<int>, pid: int)
    requires 0 in active && 0 < pid
    ensures var after := Replace(active, 0, pid);
            pid in after && (forall p :: p in active && p != 0 ==> p in after) &&
            multiset(after)[0] == multiset(active)[0] - 1
  {
    ReplaceCounts(active, 0, pid);
    var after := Replace(active, 0, pid);
    assert 0 in multiset(active);
    forall p | p == pid || (p in active && p != 0)
      ensures p in after
    {
      assert p in multiset(after) by { assert p != pid ==> p in multiset(active); }
    }
  }

  lemma {:induction false} RemoveChild(c: Config, s: Sys)
    requires ChildTableExact(c, s) && Enabled(s, Remove) && 0 < s.pc.pid
    ensures ChildTableExact(c, Apply(c, s, Remove))
  {
    var pid := s.pc.pid;
    var t := Apply(c, s, Remove);
    assert multiset(s.mem.childs)[pid] == Expected(c, s, pid) == 1;
    assert pid in multiset(s.mem.childs);
    forall p
      ensures multiset(t.mem.childs)[p] == Expected(c, t, p)
    {
      ReplaceCount(s.mem.childs, pid, 0, p);
      assert multiset(s.mem.childs)[p] == Expected(c, s, p);
    }
  }

  lemma {:induction false} RemoveActiveChild(c: Config, s: Sys)
    requires ActiveTableComplete(c, s) && ActiveTableOk(s) && Enabled(s, Remove) && 0 < s.pc.pid
    requires 0 !in s.kids
    ensures ActiveTableComplete(c, Apply(c, s, Remove))
  {
    var pid := s.pc.pid;
    var t := Apply(c, s, Remove);
    KidsWithout(s.kids, pid);
    ReplaceCounts(s.mem.active, pid, 0);
    assert pid in s.mem.active <==> pid in ActiveSet(s.kids);
    forall p | p in ActiveSet(t.kids)
      ensures p in t.mem.active
    {
      assert p in ActiveSet(s.kids) && p in multiset(s.mem.active);
      assert p in multiset(t.mem.active);
    }
  }

  lemma {:induction false} ChildsStep(c: Config, s: Sys, a: Action)
    requires Roomy(c) && Inv(c, s) && ChildTableExact(c, s) && Enabled(s, a)
    ensures ChildTableExact(c, Apply(c, s, a))
  {
    match a {
      case Register =>
        FreeChildSlot(c, s);
        RegisterTables(c, s);
      case Remove => RemoveChild(c, s);
      case _ =>
        forall p
          ensures multiset(Apply(c, s, a).mem.childs)[p] == Expected(c, Apply(c, s, a), p)
        {
          assert multiset(s.mem.childs)[p] == Expected(c, s, p);
        }
    }
  }

  lemma {:induction false} ActiveStep(c: Config, s: Sys, a: Action)
    requires Roomy(c) && Inv(c, s) && ActiveTableComplete(c, s) && Enabled(s, a)
    ensures ActiveTableComplete(c, Apply(c, s, a))
  {
    match a {
      case Activate(pid) =>
        FreeActiveSlot(c, s, pid);
        ActivateTables(c, s, pid);
      case Remove => RemoveActiveChild(c, s);
      case _ => assert ActiveSet(Apply(c, s, a).kids) == ActiveSet(s.kids);
    }
  }

  lemma {:induction false} RunTables(c: Config, acts: seq<Action>, s: Sys)
    requires Roomy(c) && Reaches(c, acts, s)
    ensures Inv(c, s) && TablesExact(c, s)
    decreases |acts|
  {
    RunInv(c, acts, s);
    if acts == [] {
      InitTables(c);
    } else {
      var k := |acts| - 1;
      var t :| Reaches(c, acts[..k], t) && Enabled(t, acts[k]) && s == Apply(c, t, acts[k]);
      RunTables(c, acts[..k], t);
      ChildsStep(c, t, acts[k]);
      ActiveStep(c, t, acts[k]);
    }
  }

  // ---------------------------------------------------------------- main results

  /** Children that are running and have not taken a client. */
  function Waiting(kids: map<int, Child>): set<int> {
    set p | p in kids && kids[p] == Child(Idle, true)
  }

  /** No registration, removal, death or pair of child sections is in flight. */
  predicate Quiet(s: Sys) {
    !s.pc.Add? && !s.pc.Reap? && !s.pc.Lost? &&
    forall p :: p in s.kids ==> s.kids[p].alive && !s.kids[p].phase.Taken?
  }

  /** The books of every interleaving: processes are registrations minus removals, spares are
      registrations minus decrements, and the process count never passes the limit. */
  lemma {:induction false} CountersBalance(c: Config, acts: seq<Action>, s: Sys)
    requires Reaches(c, acts, s)
    ensures s.mem.numProcs == s.registered - s.removed <= Limit(c)
    ensures s.mem.numSpare == s.registered - s.decrements
    ensures s.mem.numProcs >= s.failed
    ensures s.mem.numSpare >= s.failed - s.twice - 1
  {
    RunInv(c, acts, s);
    TookBounded(s.kids);
  }

  /** With nothing in flight the spare counter is right exactly when every failed fork is
      made up for by a child that was subtracted twice. */
  lemma {:induction false} SpareCountExact(c: Config, acts: seq<Action>, s: Sys)
    requires Reaches(c, acts, s) && Quiet(s)
    ensures s.mem.numSpare == |Waiting(s.kids)| <==> s.failed == s.twice
  {
    RunInv(c, acts, s);
    QuietKids(s.kids);
  }

  lemma {:induction false} QuietKids(kids: map<int, Child>)
    requires forall p :: p in kids ==> kids[p].alive
    ensures |Waiting(kids)| + |Took(kids)| == |kids.Keys|
  {
    forall p | p in kids
      ensures p in Waiting(kids) + Took(kids)
    {
      assert kids[p] == Child(kids[p].phase, true);
    }
    assert kids.Keys == Waiting(kids) + Took(kids);
    assert Waiting(kids) !! Took(kids);
  }

  /** With room in the tables, exactly the children that died between their two sections are
      subtracted a second time when they are removed. */
  lemma {:induction false} TwiceIffTorn(c: Config, acts: seq<Action>, s: Sys)
    requires Roomy(c) && Reaches(c, acts, s) && Enabled(s, Remove)
    ensures Apply(c, s, Remove).twice == s.twice + if s.kids[s.pc.pid].phase.Taken? then 1 else 0
    ensures !s.kids[s.pc.pid].alive
  {
    RunTables(c, acts, s);
    assert s.pc.pid in s.mem.active <==> s.pc.pid in ActiveSet(s.kids);
  }

  /** Children that died between their two sections and have not been removed yet. */
  function Dying(kids: map<int, Child>): set<int> {
    set p | p in kids && kids[p] == Child(Taken, false)
  }

  lemma {:induction false} DyingKept(kids: map<int, Child>, p: int, child: Child)
    requires (p !in kids || kids[p].alive) && child != Child(Taken, false)
    ensures Dying(kids[p := child]) == Dying(kids)
  {
    assert p !in Dying(kids);
  }

  lemma {:induction false} DyingJoins(kids: map<int, Child>, p: int)
    requires p in kids && kids[p].alive
    ensures |Dying(kids[p := Child(Taken, false)])| == |Dying(kids)| + 1
  {
    assert p !in Dying(kids);
    assert Dying(kids[p := Child(Taken, false)]) == Dying(kids) + {p};
  }

  lemma {:induction false} DyingWithout(kids: map<int, Child>, p: int)
    requires p in kids && !kids[p].alive
    ensures |Dying(kids - {p})| == |Dying(kids)| - if kids[p].phase.Taken? then 1 else 0
  {
    assert Dying(kids - {p}) == Dying(kids) - {p};
    assert kids[p] == Child(kids[p].phase, false);
  }

  lemma {:induction false} DyingStep(c: Config, acts: seq<Action>, s: Sys, a: Action)
    requires Roomy(c) && Reaches(c, acts, s) && Enabled(s, a) && s.torn == s.twice + |Dying(s.kids)|
    ensures var t := Apply(c, s, a); t.torn == t.twice + |Dying(t.kids)|
  {
    hide Dying, Reaches, Roomy, Replace, PreforkTotal, Resume;
    match a {
      case Remove =>
        TwiceIffTorn(c, acts, s);
        DyingWithout(s.kids, s.pc.pid);
      case ForkOk(pid) => DyingKept(s.kids, pid, Child(Idle, true));
      case Take(pid) => DyingKept(s.kids, pid, Child(Taken, true));
      case Activate(pid) => DyingKept(s.kids, pid, Child(Active, true));
      case Die(pid) =>
        if s.kids[pid].phase.Taken? {
          DyingJoins(s.kids, pid);
        } else {
          DyingKept(s.kids, pid, Child(s.kids[pid].phase, false));
        }
      case _ =>
    }
  }

  lemma {:induction false} TornRun(c: Config, acts: seq<Action>, s: Sys)
    requires Roomy(c) && Reaches(c, acts, s)
    ensures s.torn == s.twice + |Dying(s.kids)|
    decreases |acts|
  {
    if acts == [] {
      assert Dying(s.kids) == {};
    } else {
      var k := |acts| - 1;
      assert acts == acts[..k] + [acts[k]];
      var t := LastStep(c, acts[..k], acts[k], s);
      TornRun(c, acts[..k], t);
      DyingStep(c, acts[..k], t, acts[k]);
    }
  }

  /** With nothing in flight and room in the tables, the spare counter is right exactly when
      as many forks failed as children died between their two sections. */
  lemma {:induction false} SpareCountTorn(c: Config, acts: seq<Action>, s: Sys)
    requires Roomy(c) && Reaches(c, acts, s) && Quiet(s)
    ensures s.mem.numSpare == |Waiting(s.kids)| <==> s.failed == s.torn
    ensures s.mem.numSpare == |Waiting(s.kids)| + s.failed - s.torn
  {
    TornRun(c, acts, s);
    RunInv(c, acts, s);
    QuietKids(s.kids);
    assert Dying(s.kids) == {};
  }

  /** Every fork succeeds and no child dies between its two sections. */
  ghost predicate ReachesCleanly(c: Config, acts: seq<Action>, s: Sys)
    decreases |acts|
  {
    if acts == [] then s == Init(c)
    else
      var k := |acts| - 1;
      exists t :: ReachesCleanly(c, acts[..k], t) && Enabled(t, acts[k]) && Clean(t, acts[k]) &&
                  s == Apply(c, t, acts[k])
  }

  predicate Clean(s: Sys, a: Action)
    requires Enabled(s, a)
  {
    !a.ForkFail? && (a.Die? ==> !s.kids[a.pid].phase.Taken?)
  }

  ghost predicate CleanInv(s: Sys) {
    && s.failed == 0 && s.twice == 0
    && (s.pc.Add? ==> s.pc.pid != -1)
    && (forall p :: p in s.kids && !s.kids[p].alive ==> !s.kids[p].phase.Taken?)
  }

  lemma {:induction false} CleanStep(c: Config, s: Sys, a: Action)
    requires CleanInv(s) && Enabled(s, a) && Clean(s, a) && ActiveTableComplete(c, s)
    requires forall p :: p in s.kids ==> 0 < p
    requires s.pc.Reap? && s.pc.pid in s.kids ==> !s.kids[s.pc.pid].alive
    ensures CleanInv(Apply(c, s, a))
  {
    if a.Remove? {
      assert s.kids[s.pc.pid].phase.Active? ==> s.pc.pid in ActiveSet(s.kids);
    }
  }

  lemma {:induction false} CleanRun(c: Config, acts: seq<Action>, s: Sys)
    requires Roomy(c) && ReachesCleanly(c, acts, s)
    ensures Reaches(c, acts, s) && CleanInv(s)
    decreases |acts|
  {
    if acts != [] {
      var k := |acts| - 1;
      var t :| ReachesCleanly(c, acts[..k], t) && Enabled(t, acts[k]) && Clean(t, acts[k]) &&
               s == Apply(c, t, acts[k]);
      CleanRun(c, acts[..k], t);
      RunTables(c, acts[..k], t);
      CleanStep(c, t, acts[k]);
    }
  }

  /** In a clean run of a roomy configuration the process counter counts the registered
      children, and the spare counter never falls below -1 and, with nothing in flight, counts
      the children waiting for a client. */
  lemma {:induction false} CleanCounters(c: Config, acts: seq<Action>, s: Sys)
    requires Roomy(c) && ReachesCleanly(c, acts, s)
    ensures s.mem.numProcs == |s.kids.Keys| - Adding(s.pc) <= c.maxChilds
    ensures s.mem.numSpare == s.registered - s.decrements >= -1
    ensures Quiet(s) ==> s.mem.numSpare == |Waiting(s.kids)|
  {
    CleanRun(c, acts, s);
    RunInv(c, acts, s);
    CountersBalance(c, acts, s);
    if Quiet(s) {
      SpareCountExact(c, acts, s);
    }
  }

  /** The child table then holds the registered children, once each, and nothing else. */
  lemma {:induction false} CleanChildTable(c: Config, acts: seq<Action>, s: Sys, p: int)
    requires Roomy(c) && ReachesCleanly(c, acts, s) && p != 0
    ensures multiset(s.mem.childs)[p] == if p in s.kids && !(s.pc.Add? && s.pc.pid == p) then 1 else 0
  {
    CleanRun(c, acts, s);
    RunTables(c, acts, s);
    assert multiset(s.mem.childs)[p] == Expected(c, s, p);
  }

  /** A configuration that is neither crowded nor roomy starts no child at all. */
  lemma {:induction false} NothingStarts(c: Config, acts: seq<Action>, s: Sys)
    requires !Crowded(c) && !Roomy(c) && Reaches(c, acts, s)
    ensures s.kids == map[] && !s.pc.Add? && !s.pc.Fork? && !s.pc.Lost?
    decreases |acts|
  {
    if acts != [] {
      var k := |acts| - 1;
      var t :| Reaches(c, acts[..k], t) && Enabled(t, acts[k]) && s == Apply(c, t, acts[k]);
      NothingStarts(c, acts[..k], t);
      RunInv(c, acts[..k], t);
      CountersBalance(c, acts[..k], t);
    }
  }

  /** If there are as many slots as preforked children, registering a child and marking one
      active always find a free slot. */
  lemma {:induction false} SlotsNeverRunOut(c: Config, acts: seq<Action>, s: Sys)
    requires !Crowded(c) && Reaches(c, acts, s)
    ensures Enabled(s, Register) ==> 0 in s.mem.childs
    ensures forall p :: Enabled(s, Activate(p)) ==> 0 in s.mem.active
  {
    if !Roomy(c) {
      NothingStarts(c, acts, s);
      return;
    }
    RunTables(c, acts, s);
    if Enabled(s, Register) {
      FreeChildSlot(c, s);
    }
    forall p | Enabled(s, Activate(p))
      ensures 0 in s.mem.active
    {
      FreeActiveSlot(c, s, p);
    }
  }

  /** The second disjunct of the refill test is dead code. */
  lemma {:induction false} SecondTestNeverForks(c: Config, acts: seq<Action>, s: Sys)
    requires Reaches(c, acts, s) && Enabled(s, ReadSecond)
    ensures Apply(c, s, ReadSecond).pc.Wait?
  {
    RunInv(c, acts, s);
  }

  /** When the prefork loop ends, every fork it was to try has been registered. */
  lemma {:induction false} PreforkCompletes(c: Config, acts: seq<Action>, s: Sys)
    requires Reaches(c, acts, s) && s.pc.Add? && s.pc.loop.Prefork?
    ensures Apply(c, s, Register).pc.Wait? <==>
            Apply(c, s, Register).mem.numProcs == if c.spareChilds == 0 then 1 else c.spareChilds
  {
    RunInv(c, acts, s);
  }

  lemma {:induction false} ReachesOne(c: Config, acts: seq<Action>, s: Sys, t: Sys)
    requires Reaches(c, acts, s) && Reaches(c, acts, t)
    ensures s == t
    decreases |acts|
  {
    if acts != [] {
      var k := |acts| - 1;
      var s' :| Reaches(c, acts[..k], s') && Enabled(s', acts[k]) && s == Apply(c, s', acts[k]);
      var t' :| Reaches(c, acts[..k], t') && Enabled(t', acts[k]) && t == Apply(c, t', acts[k]);
      ReachesOne(c, acts[..k], s', t');
    }
  }

  lemma {:induction false} LastStep(c: Config, acts: seq<Action>, a: Action, s: Sys) returns (t: Sys)
    requires Reaches(c, acts + [a], s)
    ensures Reaches(c, acts, t) && Enabled(t, a) && s == Apply(c, t, a)
  {
    hide Enabled, Apply, Init;
    assert (acts + [a])[..|acts|] == acts;
    t :| Reaches(c, acts, t) && Enabled(t, a) && s == Apply(c, t, a);
  }

  lemma {:induction false} QuotaFull(c: Config, acts: seq<Action>, s: Sys)
    requires Reaches(c, acts, s) && c.maxChilds <= s.failed
    ensures s.pc != Fork(Refill)
  {
    CountersBalance(c, acts, s);
    RunInv(c, acts, s);
  }

  lemma {:induction false} FailuresStay(c: Config, s: Sys, a: Action)
    requires Enabled(s, a)
    ensures s.failed <= Apply(c, s, a).failed
  {
  }

  /** Failed forks are never given back: once they fill the quota, no continuation of the run
      ever comes to another fork in the refill loop. */
  lemma {:induction false} FailedForksStarve(c: Config, acts: seq<Action>, t: Sys, more: seq<Action>, s: Sys)
    requires Reaches(c, acts, t) && c.maxChilds <= t.failed && Reaches(c, acts + more, s)
    ensures t.failed <= s.failed && s.pc != Fork(Refill)
    decreases |more|
  {
    hide *;
    if more == [] {
      assert acts + more == acts;
      ReachesOne(c, acts, s, t);
    } else {
      var k := |more| - 1;
      assert acts + more == (acts + more[..k]) + [more[k]];
      var s' := LastStep(c, acts + more[..k], more[k], s);
      FailedForksStarve(c, acts, t, more[..k], s');
      FailuresStay(c, s', more[k]);
    }
    QuotaFull(c, acts + more, s);
  }

  // ---------------------------------------------------------------- refill loop

  predicate InRefill(s: Sys) {
    match s.pc
    case Fork(loop) => loop.Refill?
    case Add(_, loop) => loop.Refill?
    case TestProcs => true
    case TestSpare => true
    case TestSecond => true
    case _ => false
  }

  function Rank(c: Config, s: Sys): nat {
    var free := if s.mem.numProcs < c.maxChilds then c.maxChilds - s.mem.numProcs else 0;
    5 * free + (match s.pc
                case TestProcs => 4
                case TestSpare => 3
                case TestSecond => 2
                case Fork(_) => 1
                case _ => 0)
  }

  predicate ByChild(a: Action) {
    a.Take? || a.Activate? || a.Die?
  }

  /** Whatever the children do meanwhile, every parent step of the refill loop lowers its rank
      or leaves the loop, so the loop ends; and it is left by the tests only. */
  lemma {:induction false} RefillTerminates(c: Config, acts: seq<Action>, s: Sys, a: Action)
    requires Reaches(c, acts, s) && InRefill(s) && Enabled(s, a)
    ensures var t := Apply(c, s, a);
            (t.pc.Wait? && (a.ReadSecond? || (a.ReadProcs? && c.maxChilds <= s.mem.numProcs))) ||
            (InRefill(t) && if ByChild(a) then Rank(c, t) == Rank(c, s) else Rank(c, t) < Rank(c, s))
  {
    RunInv(c, acts, s);
  }

  // ---------------------------------------------------------------- runs that go wrong

  lemma {:induction false} Then(c: Config, acts: seq<Action>, s: Sys, a: Action, t: Sys) returns (next: seq<Action>)
    requires Reaches(c, acts, s) && Enabled(s, a) && t == Apply(c, s, a)
    ensures Reaches(c, next, t) && next == acts + [a]
  {
    next := acts + [a];
    assert next[..|acts|] == acts;
  }

  lemma {:induction false} ThenCleanly(c: Config, acts: seq<Action>, s: Sys, a: Action, t: Sys) returns (next: seq<Action>)
    requires ReachesCleanly(c, acts, s) && Enabled(s, a) && Clean(s, a) && t == Apply(c, s, a)
    ensures ReachesCleanly(c, next, t)
  {
    next := acts + [a];
    assert next[..|acts|] == acts;
  }

  /** A child may decrement before its parent has registered it. */
  lemma {:induction false} SpareCanBeNegative(c: Config)
    requires 0 < PreforkTotal(c)
    ensures exists acts, s :: Reaches(c, acts, s) && s.mem.numSpare == -1
  {
    var s0 := Init(c);
    assert Reaches(c, [], s0);
    var s1 := Apply(c, s0, ForkOk(1));
    var acts := Then(c, [], s0, ForkOk(1), s1);
    acts := Then(c, acts, s1, Take(1), Apply(c, s1, Take(1)));
  }

  /** A failed fork is counted as a process and as a spare child for good. */
  lemma {:induction false} FailedForkDrifts(c: Config)
    requires PreforkTotal(c) == 1
    ensures exists acts, s :: Reaches(c, acts, s) && Quiet(s) && s.kids == map[] && s.mem.numProcs == 1 && s.mem.numSpare == 1
  {
    var s0 := Init(c);
    assert Reaches(c, [], s0);
    var s1 := Apply(c, s0, ForkFail);
    var acts := Then(c, [], s0, ForkFail, s1);
    acts := Then(c, acts, s1, Register, Apply(c, s1, Register));
    assert Quiet(Apply(c, s1, Register));
  }

  /** A child that dies between its two sections, or is missing from the active table, is
      subtracted a second time when it is removed. */
  lemma {:induction false} SubtractedTwice(c: Config, acts: seq<Action>, s: Sys, pid: int)
    requires Reaches(c, acts, s) && s.pc.Wait? && pid in s.kids && s.kids[pid].alive
    requires !s.kids[pid].phase.Idle? && pid !in s.mem.active
    ensures exists run, t :: Reaches(c, run, t) && t.kids == s.kids - {pid} && t.pc == TestProcs && t.twice == s.twice + 1 &&
                             t.mem.numProcs == s.mem.numProcs - 1 && t.mem.numSpare == s.mem.numSpare - 1
  {
    var s1 := Apply(c, s, Die(pid));
    var run := Then(c, acts, s, Die(pid), s1);
    var s2 := s1.(pc := Reap(pid));
    run := Then(c, run, s1, WaitPid(pid), s2);
    var s3 := Apply(c, s2, Remove);
    run := Then(c, run, s2, Remove, s3);
    assert s3.kids == s.kids - {pid};
    run := Then(c, run, s3, DropLost, Apply(c, s3, DropLost));
  }

  /** Room in the tables is needed: with one slot and two spare children, a clean run loses
      the second active child and subtracts it twice, and ends below zero. */
  lemma {:induction false} CrowdedTableDrifts()
    ensures exists acts, s :: ReachesCleanly(Config(1, 2), acts, s) && Quiet(s) &&
                              s.mem.numSpare == -1 && Waiting(s.kids) == {}
  {
    var acts, s := CrowdedPrefork();
    acts, s := CrowdedTake(Config(1, 2), acts, s, 5);
    acts, s := CrowdedTake(Config(1, 2), acts, s, 6);
    acts, s := CrowdedRemoval(Config(1, 2), acts, s, 6);
    assert s.kids == map[5 := Child(Active, true)];
  }

  lemma {:induction false} CrowdedPrefork() returns (acts: seq<Action>, s: Sys)
    ensures ReachesCleanly(Config(1, 2), acts, s) && s.pc.Wait?
    ensures s.mem == Shared(2, 2, [5], [0]) && s.kids == map[5 := Child(Idle, true), 6 := Child(Idle, true)]
  {
    var c := Config(1, 2);
    var s0 := Init(c);
    assert ReachesCleanly(c, [], s0) && s0.mem == Shared(0, 0, [0], [0]);
    var s1 := Apply(c, s0, ForkOk(5));
    acts := ThenCleanly(c, [], s0, ForkOk(5), s1);
    var s2 := s1.(mem := Shared(1, 1, [5], [0]), pc := Fork(Prefork(1)), registered := 1);
    acts := ThenCleanly(c, acts, s1, Register, s2);
    var s3 := Apply(c, s2, ForkOk(6));
    acts := ThenCleanly(c, acts, s2, ForkOk(6), s3);
    s := s3.(mem := Shared(2, 2, [5], [0]), pc := Wait, registered := 2);
    acts := ThenCleanly(c, acts, s3, Register, s);
  }

  /** Both sections of one child. */
  lemma {:induction false} CrowdedTake(c: Config, acts: seq<Action>, s: Sys, pid: int) returns (run: seq<Action>, t: Sys)
    requires ReachesCleanly(c, acts, s) && s.pc.Wait?
    requires pid in s.kids && s.kids[pid] == Child(Idle, true)
    ensures ReachesCleanly(c, run, t) && t.pc.Wait?
    ensures t.mem == s.mem.DecrementSpare().AddActive(pid) && t.kids == s.kids[pid := Child(Active, true)]
  {
    var s1 := Apply(c, s, Take(pid));
    run := ThenCleanly(c, acts, s, Take(pid), s1);
    t := Apply(c, s1, Activate(pid));
    run := ThenCleanly(c, run, s1, Activate(pid), t);
  }

  /** Death and removal of a child that its active table could not hold. */
  lemma {:induction false} CrowdedRemoval(c: Config, acts: seq<Action>, s: Sys, pid: int) returns (run: seq<Action>, t: Sys)
    requires ReachesCleanly(c, acts, s) && s.pc.Wait? && pid in s.kids && s.kids[pid] == Child(Active, true)
    requires pid !in s.mem.active
    ensures ReachesCleanly(c, run, t) && t.pc == TestProcs
    ensures t.mem == s.mem.RemoveActive(pid).DecrementSpare() && t.kids == s.kids - {pid}
  {
    var s1 := Apply(c, s, Die(pid));
    run := ThenCleanly(c, acts, s, Die(pid), s1);
    var s2 := s1.(pc := Reap(pid));
    run := ThenCleanly(c, run, s1, WaitPid(pid), s2);
    var s3 := Apply(c, s2, Remove);
    run := ThenCleanly(c, run, s2, Remove, s3);
    t := Apply(c, s3, DropLost);
    run := ThenCleanly(c, run, s3, DropLost, t);
    assert t.kids == s.kids - {pid};
  }
}
