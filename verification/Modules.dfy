/** The module loader: a depth-first load with cycle detection, proved against
    the least set of modules that can be loaded. */
module Modules {
  import opened Basics

  const MODULE_MAX: nat := 32

  datatype State = Declared | Loaded | Failed

  /** A module and the fixed outcome of its init function. */
  datatype Module = Module(name: string, priority: int, deps: seq<Option<string>>, init: bool)

  /** A descriptor found in the module section; only valid ones are registered. */
  datatype Descriptor = Descriptor(valid: bool, mod: Module)

  function Registered(descs: seq<Descriptor>): seq<Module> {
    if descs == [] then []
    else
      var k := |descs| - 1;
      var before := Registered(descs[..k]);
      if descs[k].valid && |before| < MODULE_MAX then before + [descs[k].mod] else before
  }

  /** The modules of the valid descriptors. */
  function ValidOnes(descs: seq<Descriptor>): seq<Module> {
    if descs == [] then [] else (if descs[0].valid then [descs[0].mod] else []) + ValidOnes(descs[1..])
  }

  lemma {:induction false} ValidAppend(a: seq<Descriptor>, b: seq<Descriptor>)
    ensures ValidOnes(a + b) == ValidOnes(a) + ValidOnes(b)
  {
    if a == [] { assert a + b == b; }
    else {
      assert (a + b)[1..] == a[1..] + b;
      ValidAppend(a[1..], b);
    }
  }

  /** The registered modules are the first valid ones, in order. */
  lemma {:induction false} RegisteredAre(descs: seq<Descriptor>)
    ensures var all := ValidOnes(descs); Registered(descs) == if |all| <= MODULE_MAX then all else all[..MODULE_MAX]
  {
    if descs != [] {
      var k := |descs| - 1;
      RegisteredAre(descs[..k]);
      ValidAppend(descs[..k], [descs[k]]);
      assert descs[..k] + [descs[k]] == descs;
    }
  }

  lemma {:induction false} FullRegistry(descs: seq<Descriptor>, k: nat)
    requires k <= |descs| && (k == |descs| || |Registered(descs[..k])| >= MODULE_MAX)
    ensures Registered(descs) == Registered(descs[..k])
  {
    var m := |descs| - 1;
    if k == |descs| { assert descs[..k] == descs; }
    else {
      assert descs[..m][..k] == descs[..k];
      FullRegistry(descs[..m], k);
    }
  }

  /** The first module from `i` on with the given name. */
  function FindFrom(mods: seq<Module>, name: string, i: nat): (r: Option<nat>)
    requires i <= |mods|
    ensures r.Some? ==> i <= r.value < |mods| && mods[r.value].name == name
    ensures forall k | i <= k < (if r.Some? then r.value else |mods|) :: mods[k].name != name
    decreases |mods| - i
  {
    if i == |mods| then None else if mods[i].name == name then Some(i) else FindFrom(mods, name, i + 1)
  }

  function Find(mods: seq<Module>, name: string): Option<nat> { FindFrom(mods, name, 0) }

  /** The module that dependency `d` of module `i` names. */
  function DepOf(mods: seq<Module>, i: nat, d: nat): Option<nat>
    requires i < |mods| && d < |mods[i].deps|
  {
    if mods[i].deps[d].None? then None else Find(mods, mods[i].deps[d].value)
  }

  // ---- What can be loaded ----

  /** Module `i` can be loaded in at most `k` rounds: its own init succeeds
      and its dependencies can be loaded in fewer. */
  predicate InLevel(mods: seq<Module>, k: nat, i: nat)
    decreases k
  {
    k > 0 && i < |mods| && mods[i].init &&
    forall d: nat {:trigger DepOf(mods, i, d)} | d < |mods[i].deps| ::
      DepOf(mods, i, d).Some? && InLevel(mods, k - 1, DepOf(mods, i, d).value)
  }

  ghost predicate Loadable(mods: seq<Module>, i: nat) { exists k: nat :: InLevel(mods, k, i) }

  predicate DepIn(mods: seq<Module>, i: nat, d: nat, s: set<nat>) {
    i < |mods| && d < |mods[i].deps| && DepOf(mods, i, d).Some? && DepOf(mods, i, d).value in s
  }

  /** `s` holds every module whose init succeeds and whose dependencies are in `s`. */
  ghost predicate Closed(mods: seq<Module>, s: set<nat>) {
    forall i: nat | i < |mods| && mods[i].init && (forall d: nat | d < |mods[i].deps| :: DepIn(mods, i, d, s)) :: i in s
  }

  lemma {:induction false} LevelUp(mods: seq<Module>, k: nat, m: nat, i: nat)
    requires InLevel(mods, k, i) && k <= m
    ensures InLevel(mods, m, i)
    decreases k
  {
    forall d: nat | d < |mods[i].deps|
      ensures DepOf(mods, i, d).Some? && InLevel(mods, m - 1, DepOf(mods, i, d).value)
    {
      LevelUp(mods, k - 1, m - 1, DepOf(mods, i, d).value);
    }
  }

  /** The loadable modules are in every closed set. */
  lemma {:induction false} LoadableLeast(mods: seq<Module>, s: set<nat>, k: nat, i: nat)
    requires Closed(mods, s) && InLevel(mods, k, i)
    ensures i in s
    decreases k
  {
    forall d: nat | d < |mods[i].deps| ensures DepIn(mods, i, d, s) {
      LoadableLeast(mods, s, k - 1, DepOf(mods, i, d).value);
    }
  }

  predicate DepLoadable(mods: seq<Module>, i: nat, d: nat, k: nat) {
    i < |mods| && d < |mods[i].deps| && DepOf(mods, i, d).Some? && InLevel(mods, k, DepOf(mods, i, d).value)
  }

  ghost predicate CanLoadDep(mods: seq<Module>, i: nat, d: nat) {
    i < |mods| && d < |mods[i].deps| && DepOf(mods, i, d).Some? && Loadable(mods, DepOf(mods, i, d).value)
  }

  /** One level bounds the first `m` dependencies. */
  lemma {:induction false} CommonLevel(mods: seq<Module>, i: nat, m: nat) returns (k: nat)
    requires i < |mods| && m <= |mods[i].deps| && forall d: nat | d < m :: CanLoadDep(mods, i, d)
    ensures forall d: nat | d < m :: DepLoadable(mods, i, d, k)
  {
    if m == 0 { return 0; }
    var k0 := CommonLevel(mods, i, m - 1);
    assert CanLoadDep(mods, i, m - 1);
    var j := DepOf(mods, i, m - 1).value;
    var k1: nat :| InLevel(mods, k1, j);
    k := if k0 < k1 then k1 else k0;
    LevelUp(mods, k1, k, j);
    forall d: nat | d < m ensures DepLoadable(mods, i, d, k) {
      if d < m - 1 {
        assert DepLoadable(mods, i, d, k0);
        LevelUp(mods, k0, k, DepOf(mods, i, d).value);
      }
    }
  }

  /** The loadable modules are a fixpoint: init succeeds and every dependency is loadable. */
  lemma LoadableFix(mods: seq<Module>, i: nat)
    requires i < |mods|
    ensures Loadable(mods, i) <==> mods[i].init && forall d: nat | d < |mods[i].deps| :: CanLoadDep(mods, i, d)
  {
    if Loadable(mods, i) {
      var k: nat :| InLevel(mods, k, i);
      forall d: nat | d < |mods[i].deps| ensures CanLoadDep(mods, i, d) {
        assert InLevel(mods, k - 1, DepOf(mods, i, d).value);
      }
    } else if mods[i].init && forall d: nat | d < |mods[i].deps| :: CanLoadDep(mods, i, d) {
      var k := CommonLevel(mods, i, |mods[i].deps|);
      forall d: nat | d < |mods[i].deps| ensures DepOf(mods, i, d).Some? && InLevel(mods, k, DepOf(mods, i, d).value) {
        assert DepLoadable(mods, i, d, k);
      }
      assert InLevel(mods, k + 1, i);
    }
  }

  // ---- The depth-first search ----

  /** Module `i` is below every module on the stack: if one of those is at a
      level, `i` is at a lower one. */
  predicate BelowAt(mods: seq<Module>, a: nat, i: nat, k: nat) {
    InLevel(mods, k, a) ==> k > 0 && InLevel(mods, k - 1, i)
  }

  ghost predicate BelowStack(mods: seq<Module>, stack: seq<bool>, i: nat) {
    forall a: nat, k: nat {:trigger BelowAt(mods, a, i, k)} | a < |stack| && stack[a] :: BelowAt(mods, a, i, k)
  }

  lemma BelowDep(mods: seq<Module>, stack: seq<bool>, i: nat, d: nat)
    requires |stack| == |mods| && i < |mods| && d < |mods[i].deps| && DepOf(mods, i, d).Some?
    requires BelowStack(mods, stack, i)
    ensures BelowStack(mods, stack[i := true], DepOf(mods, i, d).value)
  {
    var j, stack' := DepOf(mods, i, d).value, stack[i := true];
    forall a: nat, k: nat | a < |stack'| && stack'[a] ensures BelowAt(mods, a, j, k) {
      if InLevel(mods, k, a) && a != i {
        assert BelowAt(mods, a, i, k);
        LevelUp(mods, k - 2, k - 1, j);
      }
    }
  }

  /** A dependency on a module of the stack, or on itself, closes a cycle. */
  lemma CycleNotLoadable(mods: seq<Module>, stack: seq<bool>, i: nat, d: nat)
    requires |stack| == |mods| && i < |mods| && d < |mods[i].deps| && DepOf(mods, i, d).Some?
    requires BelowStack(mods, stack, i)
    requires var j := DepOf(mods, i, d).value; j == i || stack[j]
    ensures !Loadable(mods, i)
  {
    var j := DepOf(mods, i, d).value;
    if Loadable(mods, i) {
      var k: nat :| InLevel(mods, k, i);
      while k > 0
        invariant InLevel(mods, k, i)
      {
        if j != i { assert BelowAt(mods, j, i, k - 1); LevelUp(mods, k - 2, k - 1, i); }
        k := k - 1;
      }
      assert false;
    }
  }

  function Count(states: seq<State>, s: State): nat {
    if states == [] then 0 else Count(states[1..], s) + if states[0] == s then 1 else 0
  }

  lemma {:induction false} CountUpdate(states: seq<State>, i: nat, to: State, s: State)
    requires i < |states|
    ensures Count(states[i := to], s) ==
      Count(states, s) + (if to == s then 1 else 0) - (if states[i] == s then 1 else 0)
  {
    var u := states[i := to];
    if i == 0 { assert u[1..] == states[1..]; }
    else {
      assert u[1..] == states[1..][i - 1 := to];
      CountUpdate(states[1..], i - 1, to, s);
    }
  }

  lemma {:induction false} CountNone(states: seq<State>, s: State)
    ensures Count(states, s) == 0 <==> forall i | 0 <= i < |states| :: states[i] != s
  {
    if states != [] {
      CountNone(states[1..], s);
      assert forall i | 0 < i < |states| :: states[i] == states[1..][i - 1];
    }
  }

  lemma {:induction false} CountTotal(states: seq<State>)
    ensures Count(states, Declared) + Count(states, Loaded) + Count(states, Failed) == |states|
  {
    if states != [] { CountTotal(states[1..]); }
  }

  /** The modules that are not on the stack. */
  ghost function OffStack(stack: seq<bool>): nat {
    if stack == [] then 0 else OffStack(stack[1..]) + if stack[0] then 0 else 1
  }

  lemma {:induction false} OffStackPush(stack: seq<bool>, i: nat)
    requires i < |stack| && !stack[i]
    ensures OffStack(stack[i := true]) == OffStack(stack) - 1
  {
    var u := stack[i := true];
    if i == 0 { assert u[1..] == stack[1..]; }
    else {
      assert u[1..] == stack[1..][i - 1 := true];
      OffStackPush(stack[1..], i - 1);
    }
  }

  // ---- The record of init calls ----

  /** The call at position `p`: its module was not called before, and all its
      dependencies were, and succeeded. */
  predicate CallOk(mods: seq<Module>, log: seq<nat>, p: nat) {
    p < |log| && log[p] < |mods| && log[p] !in log[..p] &&
    forall d: nat {:trigger DepOf(mods, log[p], d)} | d < |mods[log[p]].deps| ::
      && DepOf(mods, log[p], d).Some? && DepOf(mods, log[p], d).value in log[..p]
      && mods[DepOf(mods, log[p], d).value].init
  }

  predicate StateOk(mods: seq<Module>, states: seq<State>, log: seq<nat>, i: nat) {
    && i < |mods| == |states|
    && (states[i] == Loaded <==> i in log && mods[i].init)
    && (i in log ==> states[i] != Declared)
  }

  ghost predicate Decided(mods: seq<Module>, states: seq<State>, i: nat) {
    i < |states| && (states[i] == Loaded ==> Loadable(mods, i)) && (states[i] == Failed ==> !Loadable(mods, i))
  }

  predicate StackOk(states: seq<State>, stack: seq<bool>, i: nat) {
    i < |states| == |stack| && (stack[i] ==> states[i] == Declared)
  }

  /** A module that no name leads to is never touched. */
  predicate Shadowed(mods: seq<Module>, states: seq<State>, i: nat) {
    i < |mods| == |states| && (Find(mods, mods[i].name) != Some(i) ==> states[i] == Declared)
  }

  ghost predicate LoaderOk(mods: seq<Module>, states: seq<State>, stack: seq<bool>, log: seq<nat>, loaded: nat,
                           failed: nat) {
    && |states| == |stack| == |mods|
    && loaded == Count(states, Loaded) && failed == Count(states, Failed)
    && (forall i: nat {:trigger StackOk(states, stack, i)} | i < |mods| :: StackOk(states, stack, i))
    && (forall i: nat {:trigger Decided(mods, states, i)} | i < |mods| :: Decided(mods, states, i))
    && (forall i: nat {:trigger StateOk(mods, states, log, i)} | i < |mods| :: StateOk(mods, states, log, i))
    && (forall i: nat {:trigger Shadowed(mods, states, i)} | i < |mods| :: Shadowed(mods, states, i))
    && (forall p: nat {:trigger CallOk(mods, log, p)} | p < |log| :: CallOk(mods, log, p))
  }

  /** What later steps keep: decided modules stay decided, and those on the stack stay declared. */
  predicate Kept(states: seq<State>, states': seq<State>, stack: seq<bool>, i: nat) {
    i < |states| == |states'| == |stack| && (states[i] != Declared || stack[i] ==> states'[i] == states[i])
  }

  ghost predicate Later(states: seq<State>, states': seq<State>, stack: seq<bool>) {
    |states'| == |states| == |stack| &&
    forall i: nat {:trigger Kept(states, states', stack, i)} | i < |states| :: Kept(states, states', stack, i)
  }

  lemma LaterTrans(s0: seq<State>, s1: seq<State>, s2: seq<State>, stack0: seq<bool>, stack1: seq<bool>)
    requires Later(s0, s1, stack0) && Later(s1, s2, stack1) && |stack0| == |stack1| && forall i | 0 <= i < |stack0| ::
      stack0[i] ==> stack1[i]
    ensures Later(s0, s2, stack0)
  {
    forall i: nat | i < |s0| ensures Kept(s0, s2, stack0, i) {
      assert Kept(s0, s1, stack0, i) && Kept(s1, s2, stack1, i);
    }
  }

  lemma LaterDone(s0: seq<State>, s1: seq<State>, stack: seq<bool>, i: nat, to: State)
    requires i < |stack| == |s0| && s0[i] == Declared && !stack[i] && Later(s0, s1, stack[i := true])
    ensures Later(s0, s1[i := to], stack)
  {
    var s2, stack' := s1[i := to], stack[i := true];
    forall x: nat | x < |s0| ensures Kept(s0, s2, stack, x) { assert Kept(s0, s1, stack', x); }
  }

  lemma {:induction false} FewerDeclared(s0: seq<State>, s1: seq<State>, b: nat)
    requires |s1| == |s0| && forall i | 0 <= i < |s0| && s0[i] != Declared :: s1[i] != Declared
    ensures Count(s1, Declared) <= Count(s0, Declared)
    ensures b < |s0| && s0[b] == Declared && s1[b] != Declared ==> Count(s1, Declared) < Count(s0, Declared)
  {
    if s0 != [] {
      assert forall i | 0 <= i < |s0| - 1 :: s0[1..][i] == s0[i + 1] && s1[1..][i] == s1[i + 1];
      FewerDeclared(s0[1..], s1[1..], if b == 0 then 0 else b - 1);
    }
  }

  /** Putting the declared module `i` on the stack. */
  lemma PushStep(mods: seq<Module>, states: seq<State>, stack: seq<bool>, log: seq<nat>, loaded: nat, failed: nat,
                 i: nat)
    requires LoaderOk(mods, states, stack, log, loaded, failed) && i < |mods| && states[i] == Declared
    ensures LoaderOk(mods, states, stack[i := true], log, loaded, failed)
  {
    var stack' := stack[i := true];
    forall x: nat | x < |mods| ensures StackOk(states, stack', x) { assert StackOk(states, stack, x); }
  }

  /** Failing module `i`, which was declared. */
  lemma FailStep(mods: seq<Module>, states: seq<State>, stack: seq<bool>, log: seq<nat>, loaded: nat, failed: nat,
                 i: nat)
    requires LoaderOk(mods, states, stack, log, loaded, failed) && i < |mods| && states[i] == Declared
    requires Find(mods, mods[i].name) == Some(i)
    requires !Loadable(mods, i)
    ensures LoaderOk(mods, states[i := Failed], stack[i := false], log, loaded, failed + 1)
  {
    var states', stack' := states[i := Failed], stack[i := false];
    CountUpdate(states, i, Failed, Loaded);
    CountUpdate(states, i, Failed, Failed);
    forall x: nat | x < |mods|
      ensures StackOk(states', stack', x) && Decided(mods, states', x) && StateOk(mods, states', log, x)
      ensures Shadowed(mods, states', x)
    {
      assert StackOk(states, stack, x) && Decided(mods, states, x) && StateOk(mods, states, log, x);
      assert Shadowed(mods, states, x);
    }
  }

  predicate DepLoaded(mods: seq<Module>, states: seq<State>, i: nat, d: nat) {
    i < |mods| == |states| && d < |mods[i].deps| && DepOf(mods, i, d).Some? && states[DepOf(mods, i, d).value] == Loaded
  }

  /** Calling the init of module `i`, all of whose dependencies are loaded. */
  lemma InitStep(mods: seq<Module>, states: seq<State>, stack: seq<bool>, log: seq<nat>, loaded: nat, failed: nat,
                 i: nat)
    requires LoaderOk(mods, states, stack, log, loaded, failed) && i < |mods| && states[i] == Declared
    requires Find(mods, mods[i].name) == Some(i)
    requires forall d: nat | d < |mods[i].deps| :: DepLoaded(mods, states, i, d)
    ensures Loadable(mods, i) <==> mods[i].init
    ensures mods[i].init ==> LoaderOk(mods, states[i := Loaded], stack[i := false], log + [i], loaded + 1, failed)
    ensures !mods[i].init ==> LoaderOk(mods, states[i := Failed], stack[i := false], log + [i], loaded, failed + 1)
  {
    var to := if mods[i].init then Loaded else Failed;
    var states', stack', log' := states[i := to], stack[i := false], log + [i];
    CountUpdate(states, i, to, Loaded);
    CountUpdate(states, i, to, Failed);
    assert StateOk(mods, states, log, i);
    forall d: nat | d < |mods[i].deps| ensures CanLoadDep(mods, i, d) {
      assert DepLoaded(mods, states, i, d) && Decided(mods, states, DepOf(mods, i, d).value);
    }
    LoadableFix(mods, i);
    forall x: nat | x < |mods|
      ensures StackOk(states', stack', x) && Decided(mods, states', x) && StateOk(mods, states', log', x)
      ensures Shadowed(mods, states', x)
    {
      assert StackOk(states, stack, x) && Decided(mods, states, x) && StateOk(mods, states, log, x);
      assert Shadowed(mods, states, x);
    }
    forall p: nat | p < |log'| ensures CallOk(mods, log', p) {
      if p < |log| {
        assert CallOk(mods, log, p) && log'[..p] == log[..p];
      } else {
        assert log'[..p] == log;
        forall d: nat | d < |mods[i].deps|
          ensures DepOf(mods, i, d).Some? && DepOf(mods, i, d).value in log && mods[DepOf(mods, i, d).value].init
        {
          assert DepLoaded(mods, states, i, d) && StateOk(mods, states, log, DepOf(mods, i, d).value);
        }
      }
    }
  }

  // ---- The loader ----

  /** The declared module of lowest priority value, the first of these. */
  predicate NextToLoad(mods: seq<Module>, states: seq<State>, b: nat) {
    && b < |states| == |mods| && states[b] == Declared
    && forall i | 0 <= i < |mods| && states[i] == Declared ::
         mods[b].priority < mods[i].priority || (mods[b].priority == mods[i].priority && b <= i)
  }

  /** A turn of the loop over all modules: the module it loads, and the states before. */
  datatype Pick = Pick(next: nat, states: seq<State>)

  /** Every turn loads a declared module of lowest priority value, the first of these. */
  ghost predicate AllPicked(mods: seq<Module>, turns: seq<Pick>) {
    forall k | 0 <= k < |turns| :: NextToLoad(mods, turns[k].states, turns[k].next)
  }

  predicate UniqueNames(mods: seq<Module>) { forall i: nat | i < |mods| :: Find(mods, mods[i].name) == Some(i) }

  class Loader {
    const mods: seq<Module>
    var states: seq<State>
    var stack: seq<bool>
    var loaded: nat
    var failed: nat
    ghost var log: seq<nat>    // the init calls made, in order

    ghost predicate Valid()
      reads this
    {
      LoaderOk(mods, states, stack, log, loaded, failed)
    }

    /** No load is under way. */
    ghost predicate Idle()
      reads this
    {
      Valid() && forall i | 0 <= i < |stack| :: !stack[i]
    }

    /** Registers the valid descriptors, at most MODULE_MAX of them. */
    constructor (descs: seq<Descriptor>)
      ensures Idle() && mods == Registered(descs) && log == [] && forall i | 0 <= i < |states| :: states[i] == Declared
    {
      var found: seq<Module>, k := [], 0;
      while k < |descs| && |found| < MODULE_MAX
        invariant k <= |descs| && |found| <= MODULE_MAX && found == Registered(descs[..k])
      {
        assert descs[..k + 1][..k] == descs[..k];
        if descs[k].valid { found := found + [descs[k].mod]; }
        k := k + 1;
      }
      FullRegistry(descs, k);
      mods := found;
      states, stack := seq(|found|, _ => Declared), seq(|found|, _ => false);
      loaded, failed, log := 0, 0, [];
      new;
      CountNone(states, Loaded);
      CountNone(states, Failed);
      assert forall i: nat | i < |mods| ::
        && StackOk(states, stack, i) && Decided(mods, states, i)
        && StateOk(mods, states, log, i) && Shadowed(mods, states, i);
    }

    method IndexOf(name: Option<string>) returns (r: Option<nat>)
      ensures r == if name.None? then None else Find(mods, name.value)
    {
      if name.None? { return None; }
      var i := 0;
      while i < |mods|
        invariant i <= |mods| && Find(mods, name.value) == FindFrom(mods, name.value, i)
      {
        if mods[i].name == name.value { return Some(i); }
        i := i + 1;
      }
      return None;
    }

    method Fail(i: nat)
      requires Valid() && i < |mods| && states[i] == Declared && Find(mods, mods[i].name) == Some(i)
      requires !Loadable(mods, i)
      modifies this`states, this`stack, this`failed
      ensures Valid() && states == old(states)[i := Failed] && stack == old(stack)[i := false]
    {
      FailStep(mods, states, stack, log, loaded, failed, i);
      states, stack, failed := states[i := Failed], stack[i := false], failed + 1;
    }

    /** Loads the dependencies of module `i`, which is on the stack, in order. */
    method LoadDeps(i: nat, ghost below: seq<bool>) returns (ok: bool)
      requires Valid() && i < |mods| == |below| && stack == below[i := true] && BelowStack(mods, below, i)
      modifies this`states, this`stack, this`loaded, this`failed, this`log
      ensures Valid() && stack == old(stack) && Later(old(states), states, stack)
      ensures if ok then forall d: nat | d < |mods[i].deps| :: DepLoaded(mods, states, i, d) else !Loadable(mods, i)
      decreases OffStack(stack), 1
    {
      ghost var states0, stack0 := states, stack;
      var d := 0;
      while d < |mods[i].deps|
        invariant d <= |mods[i].deps| && Valid() && stack == stack0 && Later(states0, states, stack)
        invariant forall e: nat | e < d :: DepLoaded(mods, states, i, e)
      {
        var dep := IndexOf(mods[i].deps[d]);
        LoadableFix(mods, i);
        if dep.None? {
          assert !CanLoadDep(mods, i, d);
          return false;
        }
        var j := dep.value;
        if j == i || stack[j] {
          CycleNotLoadable(mods, below, i, d);
          return false;
        }
        ghost var states1 := states;
        BelowDep(mods, below, i, d);
        var loadedDep := LoadIndex(j);
        LaterTrans(states0, states1, states, stack, stack);
        if !loadedDep {
          assert !CanLoadDep(mods, i, d);
          return false;
        }
        forall e: nat | e < d ensures DepLoaded(mods, states, i, e) {
          assert DepLoaded(mods, states1, i, e) && Kept(states1, states, stack, DepOf(mods, i, e).value);
        }
        d := d + 1;
      }
      return true;
    }

    /** Loads module `i` after its dependencies; it ends up loaded exactly when it is loadable. */
    method LoadIndex(i: nat) returns (ok: bool)
      requires Valid() && i < |mods| && !stack[i] && BelowStack(mods, stack, i) && Find(mods, mods[i].name) == Some(i)
      modifies this`states, this`stack, this`loaded, this`failed, this`log
      ensures Valid() && stack == old(stack) && Later(old(states), states, stack)
      ensures ok <==> Loadable(mods, i)
      ensures states[i] == if ok then Loaded else Failed
      decreases OffStack(stack), 0
    {
      ghost var states0, stack0 := states, stack;
      assert Decided(mods, states, i);
      if states[i] == Loaded { return true; }
      if states[i] == Failed { return false; }
      OffStackPush(stack, i);
      PushStep(mods, states, stack, log, loaded, failed, i);
      stack := stack[i := true];
      ok := LoadDeps(i, stack0);
      assert Kept(states0, states, stack, i);
      ghost var states1 := states;
      assert stack[i := false] == stack0;
      if !ok {
        Fail(i);
      } else {
        InitStep(mods, states, stack, log, loaded, failed, i);
        ok := mods[i].init;
        log, stack := log + [i], stack[i := false];
        if ok { states, loaded := states[i := Loaded], loaded + 1; }
        else { states, failed := states[i := Failed], failed + 1; }
      }
      LaterDone(states0, states1, stack0, i, states[i]);
    }

    /** Loads a module by name. */
    method Load(name: string) returns (ok: bool)
      requires Idle()
      modifies this`states, this`stack, this`loaded, this`failed, this`log
      ensures Idle() && Later(old(states), states, stack)
      ensures ok <==> Find(mods, name).Some? && Loadable(mods, Find(mods, name).value)
      ensures Find(mods, name).Some? ==> states[Find(mods, name).value] == if ok then Loaded else Failed
    {
      var r := IndexOf(Some(name));
      if r.None? {
        assert forall i: nat | i < |mods| :: Kept(states, states, stack, i);
        return false;
      }
      assert forall a: nat, k: nat | a < |stack| && stack[a] :: BelowAt(mods, a, r.value, k);
      ok := LoadIndex(r.value);
    }

    method FindNext() returns (best: Option<nat>)
      requires |states| == |mods|
      ensures best.None? <==> forall i | 0 <= i < |mods| :: states[i] != Declared
      ensures best.Some? ==> NextToLoad(mods, states, best.value)
    {
      best := None;
      var i := 0;
      while i < |mods|
        invariant i <= |mods|
        invariant best.None? <==> forall k | 0 <= k < i :: states[k] != Declared
        invariant best.Some? ==> best.value < i && states[best.value] == Declared
        invariant best.Some? ==> forall k | 0 <= k < i && states[k] == Declared ::
            || mods[best.value].priority < mods[k].priority
            || (mods[best.value].priority == mods[k].priority && best.value <= k)
      {
        if states[i] == Declared && (best.None? || mods[i].priority < mods[best.value].priority) { best := Some(i); }
        i := i + 1;
      }
    }

    /** One turn of the loop over all modules. */
    method Turn(next: nat)
      requires Idle() && next < |mods| && states[next] == Declared
      modifies this`states, this`stack, this`loaded, this`failed, this`log
      ensures Idle() && Count(states, Declared) <= Count(old(states), Declared)
      ensures UniqueNames(mods) ==> Count(states, Declared) < Count(old(states), Declared)
    {
      ghost var states0 := states;
      var ok := Load(mods[next].name);
      forall i | 0 <= i < |states0| && states0[i] != Declared ensures states[i] != Declared {
        assert Kept(states0, states, stack, i);
      }
      FewerDeclared(states0, states, next);
    }

    /** Loads every module: each ends up loaded or failed, and loaded exactly
        when it is loadable, whatever the priorities. */
    method LoadAll() returns (r: nat, ghost turns: seq<Pick>)
      requires Idle() && UniqueNames(mods)
      modifies this`states, this`stack, this`loaded, this`failed, this`log
      ensures Idle() && loaded + failed == |mods|
      ensures forall i: nat | i < |mods| :: states[i] == if Loadable(mods, i) then Loaded else Failed
      ensures r == if Count(old(states), Declared) == 0 then 0 else loaded
      ensures AllPicked(mods, turns) && (turns == [] <==> Count(old(states), Declared) == 0)
    {
      var progress := false;
      turns := [];
      CountNone(states, Declared);
      var next := FindNext();
      while next.Some?
        invariant Idle() && (progress || next.Some? <==> Count(old(states), Declared) > 0)
        invariant next.None? <==> forall i | 0 <= i < |mods| :: states[i] != Declared
        invariant next.Some? ==> NextToLoad(mods, states, next.value)
        invariant AllPicked(mods, turns) && (turns == [] <==> !progress)
        decreases Count(states, Declared)
      {
        progress := true;
        turns := turns + [Pick(next.value, states)];
        Turn(next.value);
        next := FindNext();
      }
      CountNone(states, Declared);
      CountTotal(states);
      forall i: nat | i < |mods| ensures states[i] == if Loadable(mods, i) then Loaded else Failed {
        assert Decided(mods, states, i);
      }
      r := if progress then loaded else 0;
    }

    /** The loop over all modules, cut off after `limit` turns: it ends by
        itself exactly when no module has the name of an earlier one. */
    method LoadSome(limit: nat) returns (ended: bool)
      requires Idle()
      modifies this`states, this`stack, this`loaded, this`failed, this`log
      ensures Idle()
      ensures limit >= |mods| ==> (ended <==> UniqueNames(mods))
      ensures !UniqueNames(mods) ==> !ended
    {
      var turns := 0;
      CountTotal(states);
      var next := FindNext();
      while next.Some? && turns < limit
        invariant Idle() && turns <= limit
        invariant next.None? <==> forall i | 0 <= i < |mods| :: states[i] != Declared
        invariant next.Some? ==> next.value < |mods| && states[next.value] == Declared
        invariant UniqueNames(mods) ==> Count(states, Declared) + turns <= |mods|
      {
        Turn(next.value);
        next := FindNext();
        turns := turns + 1;
      }
      CountNone(states, Declared);
      ended := next.None?;
      if !UniqueNames(mods) {
        ghost var i: nat :| i < |mods| && Find(mods, mods[i].name) != Some(i);
        assert Shadowed(mods, states, i);
      }
    }
  }

  /** Two descriptors with one name: both are registered, but the name finds only the first. */
  lemma SameName(d: Descriptor)
    requires d.valid
    ensures Registered([d, d]) == [d.mod, d.mod] && !UniqueNames(Registered([d, d]))
  {
    var mods := [d.mod, d.mod];
    assert [d, d][..1] == [d] && [d][..0] == [];
    assert Registered([d]) == [d.mod];
    assert Find(mods, mods[1].name) == Some(0);
  }

  /** The loop over them goes on for any number of turns. */
  method LoadTwins(limit: nat) returns (ended: bool)
    ensures !ended
  {
    var d := Descriptor(true, Module("fs", 0, [], true));
    SameName(d);
    var loader := new Loader([d, d]);
    ended := loader.LoadSome(limit);
  }
}
