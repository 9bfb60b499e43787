/** Exact limits of the prefork server: when it can still fork, when its tables overflow, and
    when its spare counter is negative. */
module ServerLimits {
  import opened Slots
  import opened Server

  // ---------------------------------------------------------------- continuations

  /** A continuation of the run leads to the state. */
  ghost predicate Onward(c: Config, acts: seq<Action>, t: Sys) {
    exists more :: Reaches(c, acts + more, t)
  }

  lemma {:induction false} OnwardStays(c: Config, acts: seq<Action>, s: Sys)
    requires Reaches(c, acts, s)
    ensures Onward(c, acts, s)
  {
    hide Reaches;
    assert acts + [] == acts;
  }

  lemma {:induction false} OnwardThen(c: Config, acts: seq<Action>, s: Sys, a: Action, t: Sys)
    requires Onward(c, acts, s) && Enabled(s, a) && t == Apply(c, s, a)
    ensures Onward(c, acts, t)
  {
    hide Enabled, Apply, Reaches;
    var more :| Reaches(c, acts + more, s);
    var next := Then(c, acts + more, s, a, t);
    assert next == acts + (more + [a]);
  }

  lemma {:induction false} OnwardInv(c: Config, acts: seq<Action>, s: Sys)
    requires Onward(c, acts, s)
    ensures Inv(c, s)
  {
    hide Reaches, Inv;
    var more :| Reaches(c, acts + more, s);
    RunInv(c, acts + more, s);
  }

  // ---------------------------------------------------------------- the refill test

  /** What decides about a fork: children that have not taken a client, failed forks and double
      subtractions. */
  lemma {:induction false} ForkDecision(c: Config, acts: seq<Action>, s: Sys)
    requires Reaches(c, acts, s) && s.pc.TestSpare?
    ensures Apply(c, s, ReadSpare).pc == Fork(Refill) <==>
            |s.kids.Keys| - |Took(s.kids)| + s.failed - s.twice < c.spareChilds
  {
    hide Reaches;
    RunInv(c, acts, s);
  }

  /** Children whose removal can still be made to count twice: they are not in the active table
      and have not died idle. */
  function Tearable(s: Sys): set<int> {
    set p | p in s.kids && p !in s.mem.active && s.kids[p] != Child(Idle, false)
  }

  /** The failures that the spare counter can still show when all children are gone, and the
      processes that are counted then, leave room for a fork. */
  predicate CanRefill(c: Config, s: Sys) {
    s.failed < c.maxChilds && s.failed - s.twice - |Tearable(s)| < c.spareChilds
  }

  /** The parent is in its main loop and not about to fork. */
  predicate Settled(pc: Pc) {
    !pc.Fork? && !pc.Add?
  }

  lemma {:induction false} TearableShrinks(s: Sys, t: Sys)
    requires Tearable(t) <= Tearable(s)
    ensures |Tearable(t)| <= |Tearable(s)|
  {
    SubsetSize(Tearable(t), Tearable(s));
  }

  lemma {:induction false} KeptInTable(active: seq<int>, from: int, to: int, p: int)
    requires p in active && p != from
    ensures p in Replace(active, from, to)
  {
    ReplaceCounts(active, from, to);
    assert p in multiset(active);
    assert p in multiset(Replace(active, from, to));
  }

  lemma {:induction false} NewInTable(active: seq<int>, from: int, to: int, p: int)
    requires p in Replace(active, from, to)
    ensures p in active || p == to
  {
    ReplaceCounts(active, from, to);
    assert p in multiset(Replace(active, from, to));
    assert p in multiset(active) || p == to;
  }

  /** Removal of a dead child: exactly a tearable one is counted twice. */
  lemma {:induction false} RemovalTears(c: Config, s: Sys, t: Sys)
    requires Inv(c, s) && Enabled(s, Remove) && t == Apply(c, s, Remove)
    ensures t.twice + |Tearable(t)| == s.twice + |Tearable(s)|
  {
    var pid := s.pc.pid;
    forall p
      ensures p in Tearable(t) <==> p in Tearable(s) && p != pid
    {
      if p in s.mem.active && p != pid {
        KeptInTable(s.mem.active, pid, 0, p);
      }
      if p in t.mem.active && p in s.kids {
        NewInTable(s.mem.active, pid, 0, p);
      }
    }
    assert Tearable(t) == Tearable(s) - {pid};
  }

  lemma {:induction false} ActivationKeeps(c: Config, s: Sys, pid: int, t: Sys)
    requires Inv(c, s) && Enabled(s, Activate(pid)) && t == Apply(c, s, Activate(pid))
    ensures |Tearable(t)| <= |Tearable(s)|
  {
    forall p | p in Tearable(t)
      ensures p in Tearable(s)
    {
      if p in s.mem.active {
        KeptInTable(s.mem.active, 0, pid, p);
      }
    }
    TearableShrinks(s, t);
  }

  /** No step of a child or of the parent outside its forks makes a fork possible again. */
  lemma {:induction false} StuckStep(c: Config, s: Sys, a: Action)
    requires Inv(c, s) && Settled(s.pc) && !CanRefill(c, s) && Enabled(s, a)
    ensures var t := Apply(c, s, a); Settled(t.pc) && !CanRefill(c, t) && t.kids.Keys <= s.kids.Keys
  {
    var t := Apply(c, s, a);
    if t.kids == s.kids && t.mem.active == s.mem.active {
      SameTearable(s, t);
    }
    match a {
      case Remove => RemovalTears(c, s, t);
      case Activate(pid) => ActivationKeeps(c, s, pid, t);
      case Take(pid) =>
        assert Tearable(t) <= Tearable(s);
        TearableShrinks(s, t);
      case Die(pid) =>
        assert Tearable(t) <= Tearable(s);
        TearableShrinks(s, t);
      case ReadSpare => NoForkWhenStuck(c, s);
      case ReadSecond => NoForkWhenStuck(c, s);
      case _ =>
    }
  }

  lemma {:induction false} NoForkWhenStuck(c: Config, s: Sys)
    requires Inv(c, s) && !CanRefill(c, s) && (s.pc.TestSpare? || s.pc.TestSecond?)
    ensures c.spareChilds <= s.mem.numSpare <= s.mem.numProcs
  {
    TookBounded(s.kids);
  }

  lemma {:induction false} Stuck(c: Config, acts: seq<Action>, s: Sys, more: seq<Action>, t: Sys)
    requires Reaches(c, acts, s) && Settled(s.pc) && !CanRefill(c, s) && Reaches(c, acts + more, t)
    ensures Settled(t.pc) && !CanRefill(c, t) && t.kids.Keys <= s.kids.Keys
    decreases |more|
  {
    hide *;
    if more == [] {
      assert acts + more == acts;
      ReachesOne(c, acts, s, t);
    } else {
      var k := |more| - 1;
      assert acts + more == (acts + more[..k]) + [more[k]];
      var u := LastStep(c, acts + more[..k], more[k], t);
      Stuck(c, acts, s, more[..k], u);
      RunInv(c, acts + more[..k], u);
      StuckStep(c, u, more[k]);
    }
  }

  // ---------------------------------------------------------------- leaving the refill loop

  /** The parent comes to wait behind the last prefork, with the process limit reached, or from
      the second test. */
  lemma {:induction false} WaitEntered(c: Config, s: Sys, a: Action)
    requires Enabled(s, a) && !s.pc.Wait? && Apply(c, s, a).pc.Wait?
    ensures (a.Register? && s.pc.loop.Prefork?) || (a.ReadProcs? && c.maxChilds <= s.mem.numProcs) || a.ReadSecond?
  {
  }

  /** The parent is at the second test only behind a first one that found enough spare
      children, with steps of children in between. */
  lemma {:induction false} SpareWasTested(c: Config, acts: seq<Action>, s: Sys) returns (j: nat, u: Sys)
    requires Reaches(c, acts, s) && s.pc.TestSecond?
    ensures j < |acts| && acts[j] == ReadSpare && Reaches(c, acts[..j], u) && c.spareChilds <= u.mem.numSpare
    ensures forall i :: j < i < |acts| ==> ByChild(acts[i])
    decreases |acts|
  {
    hide Enabled, Apply;
    assert acts != [] by { InitNotSecond(c, acts, s); }
    var k := |acts| - 1;
    assert acts == acts[..k] + [acts[k]];
    var t := LastStep(c, acts[..k], acts[k], s);
    SecondEntered(c, t, acts[k]);
    hide Reaches;
    if acts[k] == ReadSpare {
      j, u := k, t;
    } else {
      j, u := SpareWasTested(c, acts[..k], t);
      assert acts[..k][..j] == acts[..j];
      forall i | j < i < |acts|
        ensures ByChild(acts[i])
      {
        assert i < k ==> acts[i] == acts[..k][i];
      }
    }
  }

  lemma {:induction false} InitNotSecond(c: Config, acts: seq<Action>, s: Sys)
    requires Reaches(c, acts, s) && s.pc.TestSecond?
    ensures acts != []
  {
  }

  lemma {:induction false} SecondEntered(c: Config, s: Sys, a: Action)
    requires Enabled(s, a) && Apply(c, s, a).pc.TestSecond?
    ensures (a == ReadSpare && c.spareChilds <= s.mem.numSpare) || (ByChild(a) && s.pc.TestSecond?)
  {
  }

  predicate ByParent(a: Action) {
    a.ReadProcs? || a.ReadSpare? || a.ReadSecond? || a.ForkOk? || a.ForkFail? || a.Register?
  }

  /** The forks that both limits leave room for. */
  function Wanted(c: Config, s: Sys): nat {
    var procs := c.maxChilds - s.mem.numProcs;
    var spares := c.spareChilds - s.mem.numSpare;
    if procs <= 0 || spares <= 0 then 0 else if procs < spares then procs else spares
  }

  /** How far the refill loop is, woken in state s: n children have been registered. */
  predicate Refilled(c: Config, s: Sys, u: Sys, n: nat) {
    && u.mem.numProcs == s.mem.numProcs + n && u.mem.numSpare == s.mem.numSpare + n
    && n <= Wanted(c, s)
    && match u.pc
       case TestProcs => true
       case TestSpare => u.mem.numProcs < c.maxChilds
       case TestSecond => c.spareChilds <= u.mem.numSpare
       case Fork(loop) => loop.Refill? && n < Wanted(c, s)
       case Add(_, loop) => loop.Refill? && n < Wanted(c, s)
       case Wait => n == Wanted(c, s)
       case _ => false
  }

  lemma {:induction false} RefilledStep(c: Config, s: Sys, u: Sys, n: nat, a: Action) returns (m: nat)
    requires Inv(c, u) && Refilled(c, s, u, n) && Enabled(u, a) && ByParent(a)
    ensures Refilled(c, s, Apply(c, u, a), m)
  {
    m := if a.Register? then n + 1 else n;
    TookBounded(u.kids);
  }

  lemma {:induction false} RefillRun(c: Config, acts: seq<Action>, s: Sys, steps: seq<Action>, t: Sys) returns (n: nat)
    requires Reaches(c, acts, s) && s.pc.Wait? && Reaches(c, acts + [Wake] + steps, t)
    requires forall i :: 0 <= i < |steps| ==> ByParent(steps[i])
    ensures Refilled(c, s, t, n)
    decreases |steps|
  {
    hide Reaches, Inv, Refilled, Wanted;
    var woken := acts + [Wake];
    if steps == [] {
      assert woken + steps == woken;
      var u := LastStep(c, acts, Wake, t);
      ReachesOne(c, acts, s, u);
      n := 0;
      Woken(c, s);
    } else {
      var k := |steps| - 1;
      assert woken + steps == (woken + steps[..k]) + [steps[k]];
      var u := LastStep(c, woken + steps[..k], steps[k], t);
      n := RefillRun(c, acts, s, steps[..k], u);
      RunInv(c, woken + steps[..k], u);
      n := RefilledStep(c, s, u, n, steps[k]);
    }
  }

  lemma {:induction false} Woken(c: Config, s: Sys)
    requires s.pc.Wait?
    ensures Refilled(c, s, Apply(c, s, Wake), 0)
  {
  }

  /** A wake-up that ends in waiting again, with no child stepping in between, registers exactly
      the children both limits leave room for, so that one of them is reached. */
  lemma {:induction false} RefillForksExactly(c: Config, acts: seq<Action>, s: Sys, steps: seq<Action>, t: Sys)
    requires Reaches(c, acts, s) && s.pc.Wait? && Reaches(c, acts + [Wake] + steps, t) && t.pc.Wait?
    requires forall i :: 0 <= i < |steps| ==> ByParent(steps[i])
    ensures var procs, spares := c.maxChilds - s.mem.numProcs, c.spareChilds - s.mem.numSpare;
            t.mem.numProcs - s.mem.numProcs == t.mem.numSpare - s.mem.numSpare ==
            if procs <= 0 || spares <= 0 then 0 else if procs < spares then procs else spares
    ensures c.maxChilds <= t.mem.numProcs || c.spareChilds <= t.mem.numSpare
  {
    hide Reaches;
    var n := RefillRun(c, acts, s, steps, t);
  }

  // ---------------------------------------------------------------- reaching a fork

  /** From the first test the parent comes to a fork or back to waiting. */
  lemma {:induction false} TestsEnd(c: Config, acts: seq<Action>, s: Sys) returns (t: Sys)
    requires Onward(c, acts, s) && s.pc.TestProcs?
    ensures Onward(c, acts, t) && t == s.(pc := t.pc) && (t.pc == Fork(Refill) || t.pc.Wait?)
    ensures t.pc.Wait? ==> c.maxChilds <= s.mem.numProcs || c.spareChilds <= s.mem.numSpare
  {
    OnwardInv(c, acts, s);
    TookBounded(s.kids);
    hide Onward;
    t := Apply(c, s, ReadProcs);
    OnwardThen(c, acts, s, ReadProcs, t);
    if t.pc.TestSpare? {
      var u := Apply(c, t, ReadSpare);
      OnwardThen(c, acts, t, ReadSpare, u);
      t := u;
      if t.pc.TestSecond? {
        u := Apply(c, t, ReadSecond);
        OnwardThen(c, acts, t, ReadSecond, u);
        t := u;
      }
    }
  }

  /** A child dies, torn if it is waiting for a client. */
  lemma {:induction false} MakeDie(c: Config, acts: seq<Action>, s: Sys, p: int) returns (t: Sys)
    requires Onward(c, acts, s) && s.pc.Wait? && p in s.kids
    ensures Onward(c, acts, t) && t.pc.Wait? && t.kids.Keys == s.kids.Keys && !t.kids[p].alive
    ensures t.failed == s.failed && t.twice == s.twice && Tearable(t) == Tearable(s)
  {
    hide Onward;
    t := s;
    if t.kids[p] == Child(Idle, true) {
      var u := Apply(c, t, Take(p));
      OnwardThen(c, acts, t, Take(p), u);
      t := u;
    }
    if t.kids[p].alive {
      var u := Apply(c, t, Die(p));
      OnwardThen(c, acts, t, Die(p), u);
      t := u;
    }
  }

  /** A dead child is removed, and the parent is at the refill test. */
  lemma {:induction false} MakeGone(c: Config, acts: seq<Action>, s: Sys, p: int) returns (t: Sys)
    requires Onward(c, acts, s) && s.pc.Wait? && p in s.kids && !s.kids[p].alive
    ensures Onward(c, acts, t) && t.pc.TestProcs? && t.kids == s.kids - {p}
    ensures t.failed == s.failed && t.twice + |Tearable(t)| == s.twice + |Tearable(s)|
  {
    hide Onward, Tearable;
    var u := Apply(c, s, WaitPid(p));
    OnwardThen(c, acts, s, WaitPid(p), u);
    SameTearable(s, u);
    OnwardInv(c, acts, u);
    t := Apply(c, u, Remove);
    OnwardThen(c, acts, u, Remove, t);
    RemovalTears(c, u, t);
    if t.pc.Lost? {
      var v := Apply(c, t, DropLost);
      OnwardThen(c, acts, t, DropLost, v);
      SameTearable(t, v);
      t := v;
    }
  }

  lemma {:induction false} SameTearable(s: Sys, t: Sys)
    requires s.kids == t.kids && s.mem.active == t.mem.active
    ensures Tearable(s) == Tearable(t)
  {
  }

  /** With no child left the counters show the failures only. */
  lemma {:induction false} EmptyCounters(c: Config, s: Sys)
    requires Inv(c, s) && s.kids == map[] && s.pc.Wait?
    ensures s.mem.numProcs == s.failed && s.mem.numSpare == s.failed - s.twice && Tearable(s) == {}
  {
    assert s.kids.Keys == {} && Took(s.kids) == {};
  }

  lemma {:induction false} EmptyForks(c: Config, acts: seq<Action>, s: Sys) returns (t: Sys)
    requires Onward(c, acts, s) && s.pc.Wait? && CanRefill(c, s) && s.kids == map[]
    ensures Onward(c, acts, t) && t.pc == Fork(Refill)
  {
    hide Onward, Tearable, Inv;
    OnwardInv(c, acts, s);
    EmptyCounters(c, s);
    var u := Apply(c, s, Wake);
    OnwardThen(c, acts, s, Wake, u);
    t := TestsEnd(c, acts, u);
  }

  /** One child less, and still a fork within reach, if not already there. */
  lemma {:induction false} OneLess(c: Config, acts: seq<Action>, s: Sys) returns (t: Sys)
    requires Onward(c, acts, s) && s.pc.Wait? && CanRefill(c, s) && s.kids != map[]
    ensures Onward(c, acts, t) && (t.pc == Fork(Refill) || t.pc.Wait?)
    ensures CanRefill(c, t) && |t.kids| < |s.kids|
  {
    hide Onward, Tearable, Enabled, Apply;
    var p := SomeKey(s.kids);
    var u := MakeDie(c, acts, s, p);
    SameSize(s.kids, u.kids);
    var v := MakeGone(c, acts, u, p);
    SmallerMap(u.kids, p);
    t := TestsEnd(c, acts, v);
    SameTearable(v, t);
  }

  lemma {:induction false} ForkReached(c: Config, acts: seq<Action>, s: Sys) returns (t: Sys)
    requires Onward(c, acts, s) && s.pc.Wait? && CanRefill(c, s)
    ensures Onward(c, acts, t) && t.pc == Fork(Refill)
    decreases |s.kids|
  {
    hide Onward, CanRefill;
    if s.kids == map[] {
      t := EmptyForks(c, acts, s);
    } else {
      t := OneLess(c, acts, s);
      if t.pc.Wait? {
        t := ForkReached(c, acts, t);
      }
    }
  }

  lemma {:induction false} SomeKey<K, V>(m: map<K, V>) returns (k: K)
    requires m != map[]
    ensures k in m
  {
    assert m.Keys != {};
    k :| k in m.Keys;
  }

  lemma {:induction false} SameSize(a: map<int, Child>, b: map<int, Child>)
    requires a.Keys == b.Keys
    ensures |a| == |b|
  {
  }

  lemma {:induction false} SmallerMap(kids: map<int, Child>, p: int)
    requires p in kids
    ensures |kids - {p}| < |kids|
  {
    assert (kids - {p}).Keys == kids.Keys - {p};
  }

  /** The waiting parent can come to another fork exactly if this holds: the failed forks are
      fewer than `max_childs`, and, less what was or can be subtracted twice, fewer than
      `spare_childs`. */
  lemma {:induction false} RefillExactly(c: Config, acts: seq<Action>, s: Sys)
    requires Reaches(c, acts, s) && s.pc.Wait?
    ensures (exists t :: Onward(c, acts, t) && t.pc == Fork(Refill)) <==> CanRefill(c, s)
  {
    hide Reaches, CanRefill;
    if CanRefill(c, s) {
      OnwardStays(c, acts, s);
      var t := ForkReached(c, acts, s);
    } else if t :| Onward(c, acts, t) && t.pc == Fork(Refill) {
      var more :| Reaches(c, acts + more, t);
      Stuck(c, acts, s, more, t);
    }
  }

  /** A server without children starts one again exactly if failed forks leave room in both
      limits; otherwise it never has a child again. */
  lemma {:induction false} EmptyServerExactly(c: Config, acts: seq<Action>, s: Sys)
    requires Reaches(c, acts, s) && s.pc.Wait? && s.kids == map[]
    ensures (exists t :: Onward(c, acts, t) && t.pc == Fork(Refill)) <==>
            s.failed < c.maxChilds && s.failed - s.twice < c.spareChilds
    ensures !(s.failed < c.maxChilds && s.failed - s.twice < c.spareChilds) ==>
              forall t :: Onward(c, acts, t) ==> t.kids == map[]
  {
    hide Reaches, Inv, Onward;
    RunInv(c, acts, s);
    EmptyCounters(c, s);
    hide Tearable;
    RefillExactly(c, acts, s);
    if !CanRefill(c, s) {
      forall t | Onward(c, acts, t)
        ensures t.kids == map[]
      {
        StaysEmpty(c, acts, s, t);
      }
    }
  }

  lemma {:induction false} StaysEmpty(c: Config, acts: seq<Action>, s: Sys, t: Sys)
    requires Reaches(c, acts, s) && s.pc.Wait? && s.kids == map[] && !CanRefill(c, s) && Onward(c, acts, t)
    ensures t.kids == map[]
  {
    hide Reaches, CanRefill;
    var more :| Reaches(c, acts + more, t);
    Stuck(c, acts, s, more, t);
    assert t.kids.Keys == {};
  }

  lemma {:induction false} FailedPreforks(c: Config, n: nat) returns (acts: seq<Action>, s: Sys)
    requires n <= PreforkTotal(c) && 0 < PreforkTotal(c)
    ensures Reaches(c, acts, s) && s.kids == map[] && s.failed == n && s.twice == 0
    ensures s.pc == if n < PreforkTotal(c) then Fork(Prefork(n)) else Wait
  {
    hide Reaches, Replace;
    if n == 0 {
      acts, s := [], Init(c);
      assert Reaches(c, acts, s) by { InitReached(c); }
    } else {
      acts, s := FailedPreforks(c, n - 1);
      var t := Apply(c, s, ForkFail);
      acts := Then(c, acts, s, ForkFail, t);
      s := Apply(c, t, Register);
      acts := Then(c, acts, t, Register, s);
    }
  }

  lemma {:induction false} InitReached(c: Config)
    ensures Reaches(c, [], Init(c)) && ReachesCleanly(c, [], Init(c))
  {
  }

  /** If all preforks fail, however few they are, the server never has a child. */
  lemma {:induction false} FailedPreforksKill(c: Config)
    requires 0 < PreforkTotal(c)
    ensures exists acts, s :: Reaches(c, acts, s) && s.pc.Wait? && s.failed == PreforkTotal(c) &&
                              forall t :: Onward(c, acts, t) ==> t.kids == map[]
  {
    hide Reaches, Onward;
    var acts, s := FailedPreforks(c, PreforkTotal(c));
    EmptyServerExactly(c, acts, s);
  }

  // ---------------------------------------------------------------- clean runs

  lemma {:induction false} CleanIsRun(c: Config, acts: seq<Action>, s: Sys)
    requires ReachesCleanly(c, acts, s)
    ensures Reaches(c, acts, s)
    decreases |acts|
  {
    hide Enabled, Apply, Clean, Init;
    if acts != [] {
      var k := |acts| - 1;
      var t :| ReachesCleanly(c, acts[..k], t) && Enabled(t, acts[k]) && Clean(t, acts[k]) && s == Apply(c, t, acts[k]);
      CleanIsRun(c, acts[..k], t);
    }
  }

  /** In a clean run with room in the tables the counter is negative exactly while a child is
      being registered and every child, that one included, has taken a client. */
  lemma {:induction false} NegativeExactly(c: Config, acts: seq<Action>, s: Sys)
    requires Roomy(c) && ReachesCleanly(c, acts, s)
    ensures s.mem.numSpare < 0 <==> s.pc.Add? && Took(s.kids) == s.kids.Keys
  {
    CleanRun(c, acts, s);
    RunInv(c, acts, s);
    hide Reaches, ReachesCleanly;
    SubsetSize(Took(s.kids), s.kids.Keys);
  }

  /** In general the counter is negative exactly if double subtractions outweigh waiting
      children, failed forks and a removal in flight. */
  lemma {:induction false} NegativeInGeneral(c: Config, acts: seq<Action>, s: Sys)
    requires Reaches(c, acts, s)
    ensures s.mem.numSpare < 0 <==>
            |s.kids.Keys - Took(s.kids)| + s.failed + LostPending(s.pc) < s.twice + Adding(s.pc)
  {
    hide Reaches;
    RunInv(c, acts, s);
    assert s.kids.Keys == (s.kids.Keys - Took(s.kids)) + Took(s.kids);
  }

  // ---------------------------------------------------------------- no spare children

  lemma {:induction false} NoSpareStep(c: Config, s: Sys, a: Action)
    requires c.spareChilds <= 0 && Inv(c, s) && s.mem.numProcs >= s.failed && s.twice == 0 && Enabled(s, a)
    requires s.pc != Fork(Refill) && !(s.pc.Add? && s.pc.loop.Refill?)
    ensures var t := Apply(c, s, a); t.pc != Fork(Refill) && !(t.pc.Add? && t.pc.loop.Refill?)
  {
    if a.ReadSpare? || a.ReadSecond? {
      TookBounded(s.kids);
    }
  }

  /** With room in the tables, a clean run without spare children never refills. */
  lemma {:induction false} NoSpareNoRefill(c: Config, acts: seq<Action>, s: Sys)
    requires c.spareChilds <= 0 && Roomy(c) && ReachesCleanly(c, acts, s)
    ensures s.pc != Fork(Refill) && !(s.pc.Add? && s.pc.loop.Refill?)
    decreases |acts|
  {
    hide Enabled, Apply, Inv, Clean, Roomy;
    if acts != [] {
      var k := |acts| - 1;
      var t :| ReachesCleanly(c, acts[..k], t) && Enabled(t, acts[k]) && Clean(t, acts[k]) && s == Apply(c, t, acts[k]);
      hide ReachesCleanly, Reaches;
      NoSpareNoRefill(c, acts[..k], t);
      CleanRun(c, acts[..k], t);
      RunInv(c, acts[..k], t);
      CountersBalance(c, acts[..k], t);
      NoSpareStep(c, t, acts[k]);
    }
  }

  /** With `spare_childs` 0 the server starts one child: a clean run, without any failure,
      loses it, and from there on no continuation has a child again. */
  lemma {:induction false} NoSpareServesOnce(c: Config)
    requires c.spareChilds == 0
    ensures exists acts, s :: ReachesCleanly(c, acts, s) && s.pc.Wait? && s.failed == 0 && s.registered == 1 && s.removed == 1 &&
                              forall t :: Onward(c, acts, t) ==> t.kids == map[]
  {
    hide Reaches, ReachesCleanly, Onward, Quiet;
    var acts, t := OneBorn(c);
    var s;
    acts, s := OneGone(c, acts, t);
    CleanIsRun(c, acts, s);
    CleanNeverFails(c, acts, s);
    EmptyServerExactly(c, acts, s);
  }

  lemma {:induction false} OneBorn(c: Config) returns (acts: seq<Action>, s: Sys)
    requires c.spareChilds == 0
    ensures ReachesCleanly(c, acts, s) && s.pc.Wait? && s.kids == map[1 := Child(Idle, true)]
    ensures s.mem.numProcs == s.mem.numSpare == 1 && s.registered == 1 && s.removed == 0 && s.twice == 0
    ensures s.mem.active == Blank(c.maxChilds).active
  {
    hide ReachesCleanly, Replace;
    InitReached(c);
    var s0 := Init(c);
    var s1 := Apply(c, s0, ForkOk(1));
    acts := ThenCleanly(c, [], s0, ForkOk(1), s1);
    s := Apply(c, s1, Register);
    acts := ThenCleanly(c, acts, s1, Register, s);
  }

  lemma {:induction false} OneGone(c: Config, acts: seq<Action>, s: Sys) returns (run: seq<Action>, t: Sys)
    requires c.spareChilds == 0 && ReachesCleanly(c, acts, s) && s.pc.Wait? && s.kids == map[1 := Child(Idle, true)]
    requires s.mem.numProcs == s.mem.numSpare == 1 && s.registered == 1 && s.removed == 0 && s.twice == 0
    requires s.mem.active == Blank(c.maxChilds).active
    ensures ReachesCleanly(c, run, t) && t.pc.Wait? && t.kids == map[] && t.registered == 1 && t.removed == 1 && t.twice == 0
  {
    hide ReachesCleanly, Replace;
    var s1 := Apply(c, s, Die(1));
    run := ThenCleanly(c, acts, s, Die(1), s1);
    var s2 := Apply(c, s1, WaitPid(1));
    run := ThenCleanly(c, run, s1, WaitPid(1), s2);
    OneRemoved(c, s2);
    var s3 := Apply(c, s2, Remove);
    run := ThenCleanly(c, run, s2, Remove, s3);
    var s4 := Apply(c, s3, DropLost);
    run := ThenCleanly(c, run, s3, DropLost, s4);
    t := s4.(pc := Wait);
    run := TestsFail(c, run, s4);
  }

  lemma {:induction false} CleanNeverFails(c: Config, acts: seq<Action>, s: Sys)
    requires ReachesCleanly(c, acts, s)
    ensures s.failed == 0 && (s.pc.Add? ==> s.pc.pid != -1)
    decreases |acts|
  {
    if acts != [] {
      var k := |acts| - 1;
      var t :| ReachesCleanly(c, acts[..k], t) && Enabled(t, acts[k]) && Clean(t, acts[k]) && s == Apply(c, t, acts[k]);
      CleanNeverFails(c, acts[..k], t);
    }
  }

  lemma {:induction false} OneRemoved(c: Config, s: Sys)
    requires s.pc == Reap(1) && s.kids.Keys == {1} && s.mem.active == Blank(c.maxChilds).active
    ensures Enabled(s, Remove) && Apply(c, s, Remove).pc.Lost? && Apply(c, s, Remove).kids == map[]
  {
    assert (s.kids - {1}).Keys == {};
  }

  lemma {:induction false} TestsFail(c: Config, acts: seq<Action>, s: Sys) returns (run: seq<Action>)
    requires ReachesCleanly(c, acts, s) && s.pc.TestProcs? && c.spareChilds <= s.mem.numSpare == s.mem.numProcs
    ensures ReachesCleanly(c, run, s.(pc := Wait))
  {
    hide ReachesCleanly;
    var t := Apply(c, s, ReadProcs);
    run := ThenCleanly(c, acts, s, ReadProcs, t);
    if t.pc.TestSpare? {
      var u := Apply(c, t, ReadSpare);
      run := ThenCleanly(c, run, t, ReadSpare, u);
      run := ThenCleanly(c, run, u, ReadSecond, Apply(c, u, ReadSecond));
    }
  }

  // ---------------------------------------------------------------- crowded tables

  /** Children 1 to n, the first k of them active. */
  function Kids(n: int, k: int): (m: map<int, Child>)
    ensures forall p :: p in m <==> 1 <= p <= n
    ensures forall p :: p in m ==> m[p] == Child(if p <= k then Active else Idle, true)
    decreases if n <= 0 then 0 else n
  {
    if n <= 0 then map[] else Kids(n - 1, k)[n := Child(if n <= k then Active else Idle, true)]
  }

  lemma {:induction false} FillSlot(table: seq<int>, pid: int)
    requires pid != 0
    ensures multiset(Replace(table, 0, pid))[0] == if multiset(table)[0] > 0 then multiset(table)[0] - 1 else 0
  {
    ReplaceCounts(table, 0, pid);
    assert 0 in table <==> 0 in multiset(table);
  }

  lemma {:induction false} Preforked(c: Config, n: nat) returns (acts: seq<Action>, s: Sys)
    requires n <= PreforkTotal(c) && 0 < PreforkTotal(c)
    ensures ReachesCleanly(c, acts, s) && s.kids == Kids(n, 0) && s.mem.active == Blank(c.maxChilds).active
    ensures s.pc == if n < PreforkTotal(c) then Fork(Prefork(n)) else Wait
    ensures var m := SlotCount(c.maxChilds); multiset(s.mem.childs)[0] == if n < m then m - n else 0
  {
    hide ReachesCleanly, Replace;
    if n == 0 {
      acts, s := [], Init(c);
      InitReached(c);
      ZerosCount(SlotCount(c.maxChilds));
      assert Kids(0, 0) == map[];
    } else {
      acts, s := Preforked(c, n - 1);
      var t := Apply(c, s, ForkOk(n));
      acts := ThenCleanly(c, acts, s, ForkOk(n), t);
      FillSlot(s.mem.childs, n);
      s := Apply(c, t, Register);
      acts := ThenCleanly(c, acts, t, Register, s);
      assert Kids(n, 0) == Kids(n - 1, 0)[n := Child(Idle, true)];
    }
  }

  /** A clean run of a crowded configuration registers a child for which there is no slot. */
  lemma {:induction false} RegisterOverflows(c: Config)
    requires Crowded(c)
    ensures exists acts, s :: ReachesCleanly(c, acts, s) && Enabled(s, Register) && 0 !in s.mem.childs
  {
    hide ReachesCleanly, Replace;
    var m := SlotCount(c.maxChilds);
    var acts, s := Preforked(c, m);
    var t := Apply(c, s, ForkOk(m + 1));
    acts := ThenCleanly(c, acts, s, ForkOk(m + 1), t);
    assert 0 !in multiset(t.mem.childs);
    assert Enabled(t, Register) && 0 !in t.mem.childs;
  }

  lemma {:induction false} FirstActive(c: Config, k: nat) returns (acts: seq<Action>, s: Sys)
    requires Crowded(c) && k <= SlotCount(c.maxChilds)
    ensures ReachesCleanly(c, acts, s) && s.pc.Wait? && s.kids == Kids(PreforkTotal(c), k)
    ensures multiset(s.mem.active)[0] == SlotCount(c.maxChilds) - k && forall p :: p in s.mem.active ==> p <= k
  {
    hide ReachesCleanly, Replace;
    var n := PreforkTotal(c);
    if k == 0 {
      acts, s := Preforked(c, n);
      ZerosCount(SlotCount(c.maxChilds));
    } else {
      var t;
      acts, t := FirstActive(c, k - 1);
      acts, s := CrowdedTake(c, acts, t, k);
      FillSlot(t.mem.active, k);
      forall p | p in s.mem.active
        ensures p <= k
      {
        NewInTable(t.mem.active, 0, k, p);
      }
      assert Kids(n, k) == Kids(n, k - 1)[k := Child(Active, true)];
    }
  }

  /** Such a run marks a child active for which there is no slot. */
  lemma {:induction false} ActivateOverflows(c: Config)
    requires Crowded(c)
    ensures exists acts, s, p :: ReachesCleanly(c, acts, s) && Enabled(s, Activate(p)) && 0 !in s.mem.active
  {
    hide ReachesCleanly, Replace;
    var m := SlotCount(c.maxChilds);
    var acts, s := FirstActive(c, m);
    var t := Apply(c, s, Take(m + 1));
    acts := ThenCleanly(c, acts, s, Take(m + 1), t);
    assert 0 !in multiset(t.mem.active);
    assert Enabled(t, Activate(m + 1)) && 0 !in t.mem.active;
  }

  /** And when that child is gone the spare counter is wrong for good, with nothing in flight. */
  lemma {:induction false} CrowdedDrifts(c: Config)
    requires Crowded(c)
    ensures exists acts, s :: ReachesCleanly(c, acts, s) && Quiet(s) && s.mem.numSpare != |Waiting(s.kids)|
  {
    hide ReachesCleanly, Replace;
    var m := SlotCount(c.maxChilds);
    var n := PreforkTotal(c);
    var acts, s := FirstActive(c, m);
    assert 0 !in multiset(s.mem.active);
    FullTable(s.mem.active, m + 1);
    var t;
    acts, t := CrowdedTake(c, acts, s, m + 1);
    acts, s := TornRemoval(c, acts, t, m + 1);
    CleanIsRun(c, acts, s);
    CleanNeverFails(c, acts, s);
    SpareCountExact(c, acts, s);
  }

  lemma {:induction false} FullTable(active: seq<int>, pid: int)
    requires 0 !in active
    ensures Replace(active, 0, pid) == active
  {
    ReplaceAbsent(active, 0, pid);
  }

  /** A removal that counts twice, in a clean run. */
  lemma {:induction false} TornRemoval(c: Config, acts: seq<Action>, s: Sys, pid: int) returns (run: seq<Action>, t: Sys)
    requires ReachesCleanly(c, acts, s) && s.pc.Wait? && pid in s.kids && s.kids[pid] == Child(Active, true)
    requires pid !in s.mem.active
    ensures ReachesCleanly(c, run, t) && t.pc == TestProcs && t.kids == s.kids - {pid} && t.twice == s.twice + 1
  {
    hide ReachesCleanly, Replace;
    var s1 := Apply(c, s, Die(pid));
    run := ThenCleanly(c, acts, s, Die(pid), s1);
    var s2 := Apply(c, s1, WaitPid(pid));
    run := ThenCleanly(c, run, s1, WaitPid(pid), s2);
    var s3 := Apply(c, s2, Remove);
    run := ThenCleanly(c, run, s2, Remove, s3);
    t := Apply(c, s3, DropLost);
    run := ThenCleanly(c, run, s3, DropLost, t);
    assert t.kids == s.kids - {pid};
  }

  /** A clean run finds no slot, in either table, and a clean run ends with a wrong counter,
      exactly in crowded configurations. */
  lemma {:induction false} CrowdedExactly(c: Config)
    ensures (exists acts, s :: ReachesCleanly(c, acts, s) && Enabled(s, Register) && 0 !in s.mem.childs) <==> Crowded(c)
    ensures (exists acts, s, p :: ReachesCleanly(c, acts, s) && Enabled(s, Activate(p)) && 0 !in s.mem.active) <==> Crowded(c)
    ensures (exists acts, s :: ReachesCleanly(c, acts, s) && Quiet(s) && s.mem.numSpare != |Waiting(s.kids)|) <==> Crowded(c)
  {
    hide ReachesCleanly, Quiet;
    if Crowded(c) {
      RegisterOverflows(c);
      ActivateOverflows(c);
      CrowdedDrifts(c);
    } else {
      forall acts, s | ReachesCleanly(c, acts, s)
        ensures Enabled(s, Register) ==> 0 in s.mem.childs
        ensures forall p :: Enabled(s, Activate(p)) ==> 0 in s.mem.active
        ensures Quiet(s) ==> s.mem.numSpare == |Waiting(s.kids)|
      {
        UncrowdedRight(c, acts, s);
      }
    }
  }

  lemma {:induction false} UncrowdedRight(c: Config, acts: seq<Action>, s: Sys)
    requires !Crowded(c) && ReachesCleanly(c, acts, s)
    ensures Enabled(s, Register) ==> 0 in s.mem.childs
    ensures forall p :: Enabled(s, Activate(p)) ==> 0 in s.mem.active
    ensures Quiet(s) ==> s.mem.numSpare == |Waiting(s.kids)|
  {
    CleanIsRun(c, acts, s);
    SlotsNeverRunOut(c, acts, s);
    if Roomy(c) {
      CleanCounters(c, acts, s);
    } else {
      NothingStarts(c, acts, s);
      NothingCounted(c, acts, s);
      assert Waiting(s.kids) == {};
    }
  }

  lemma {:induction false} NothingCounted(c: Config, acts: seq<Action>, s: Sys)
    requires !Crowded(c) && !Roomy(c) && Reaches(c, acts, s)
    ensures s.mem.numSpare == 0
    decreases |acts|
  {
    if acts != [] {
      var k := |acts| - 1;
      var t :| Reaches(c, acts[..k], t) && Enabled(t, acts[k]) && s == Apply(c, t, acts[k]);
      NothingCounted(c, acts[..k], t);
      NothingStarts(c, acts[..k], t);
      RunInv(c, acts[..k], t);
    }
  }
}
