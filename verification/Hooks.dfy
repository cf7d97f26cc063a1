/** Hook chains: every further hook of a function patches the detour of the previous one, and
    removing a hook tears the chain down and builds the rest again. */
module Hooks {
  import opened Vectors

  type Address = nat
  type Cell = nat

  datatype Hook = Hook(target: Address, detour: Address, original: Cell)

  /** What is fixed at link time: where the named functions are, and through which variable the
      code of a detour calls on. Plain functions call through none. */
  datatype Program = Program(offsets: map<string, Address>, code: map<Address, Cell>)

  /** The registered hooks, and MinHook's own state: which address jumps to which detour, and
      which unpatched body the trampoline in a variable runs. */
  datatype Table = Table(hooks: map<string, seq<Hook>>, patches: map<Address, Address>, cells: map<Cell, Address>)

  predicate WellFormed(p: Program) {
    && (forall f, g :: f in p.offsets && g in p.offsets && p.offsets[f] == p.offsets[g] ==> f == g)
    && (forall a, b :: a in p.code && b in p.code && p.code[a] == p.code[b] ==> a == b)
    && (forall f :: f in p.offsets ==> p.offsets[f] !in p.code)
  }

  function HooksOf(t: Table, f: string): seq<Hook> {
    if f in t.hooks then t.hooks[f] else []
  }

  /** Hook 0 targets the function, hook `i + 1` the detour of hook `i`. */
  predicate Linked(entry: Address, hooks: seq<Hook>) {
    forall i :: 0 <= i < |hooks| ==> hooks[i].target == Previous(entry, hooks, i)
  }

  function Previous(entry: Address, hooks: seq<Hook>, i: nat): Address
    requires i <= |hooks|
  {
    if i == 0 then entry else hooks[i - 1].detour
  }

  predicate Installed(p: Program, t: Table, h: Hook) {
    && h.detour in p.code && p.code[h.detour] == h.original
    && h.target in t.patches && t.patches[h.target] == h.detour
    && h.original in t.cells && t.cells[h.original] == h.target
  }

  predicate Targeted(t: Table, a: Address) {
    exists f, i :: f in t.hooks && 0 <= i < |t.hooks[f]| && t.hooks[f][i].target == a
  }

  predicate Registered(t: Table, d: Address) {
    exists f, i :: f in t.hooks && 0 <= i < |t.hooks[f]| && t.hooks[f][i].detour == d
  }

  predicate DetoursDistinct(t: Table) {
    forall f, i, g, j ::
      (f in t.hooks && g in t.hooks && 0 <= i < |t.hooks[f]| && 0 <= j < |t.hooks[g]|
       && t.hooks[f][i].detour == t.hooks[g][j].detour) ==> f == g && i == j
  }

  predicate AllLinked(p: Program, t: Table) {
    forall f :: f in t.hooks ==> f in p.offsets && Linked(p.offsets[f], t.hooks[f])
  }

  predicate AllInstalled(p: Program, t: Table) {
    forall f, i :: f in t.hooks && 0 <= i < |t.hooks[f]| ==> Installed(p, t, t.hooks[f][i])
  }

  predicate AllTargeted(t: Table) {
    forall a :: a in t.patches ==> Targeted(t, a)
  }

  predicate Valid(p: Program, t: Table) {
    WellFormed(p) && AllLinked(p, t) && AllInstalled(p, t) && DetoursDistinct(t) && AllTargeted(t)
  }

  // ---------------------------------------------------------------- the operations

  /** Where the next hook of `f` goes. */
  function NextTarget(p: Program, t: Table, f: string): Address
    requires f in p.offsets
  {
    Previous(p.offsets[f], HooksOf(t, f), |HooksOf(t, f)|)
  }

  /** `SetHookInternal`: the hook is recorded first; `MH_CreateHook` then refuses a target that
      already has one. A hook just created can always be enabled. */
  function SetHook(p: Program, t: Table, f: string, d: Address, c: Cell): (Table, bool) {
    if f !in p.offsets then (t, false)
    else
      var target := NextTarget(p, t, f);
      var recorded := t.(hooks := t.hooks[f := HooksOf(t, f) + [Hook(target, d, c)]]);
      if target in t.patches then (recorded, false)
      else (recorded.(patches := t.patches[target := d], cells := t.cells[c := target]), true)
  }

  function SetAll(p: Program, t: Table, f: string, hooks: seq<Hook>): Table {
    if hooks == [] then t
    else
      var n := |hooks| - 1;
      SetHook(p, SetAll(p, t, f, hooks[..n]), f, hooks[n].detour, hooks[n].original).0
  }

  function Targets(hooks: seq<Hook>): set<Address> {
    set i | 0 <= i < |hooks| :: hooks[i].target
  }

  /** After `MH_RemoveHook` on every hook of the function and clearing its list. */
  function Torn(t: Table, f: string): Table {
    t.(hooks := t.hooks[f := []], patches := t.patches - Targets(HooksOf(t, f)))
  }

  predicate HasDetour(hooks: seq<Hook>, d: Address) {
    exists i :: 0 <= i < |hooks| && hooks[i].detour == d
  }

  function DetourFrom(hooks: seq<Hook>, d: Address, from: nat): (k: nat)
    requires from <= |hooks|
    ensures from <= k <= |hooks|
    ensures forall i :: from <= i < k ==> hooks[i].detour != d
    ensures k < |hooks| ==> hooks[k].detour == d
    decreases |hooks| - from
  {
    if from == |hooks| || hooks[from].detour == d then from else DetourFrom(hooks, d, from + 1)
  }

  /** The hooks that stay. */
  function Remaining(hooks: seq<Hook>, d: Address): seq<Hook> {
    var k := DetourFrom(hooks, d, 0);
    if k == |hooks| then hooks else hooks[..k] + hooks[k + 1..]
  }

  /** `DisableHook`. Looking the list up creates it when the function never had one. */
  function DisableHook(p: Program, t: Table, f: string, d: Address): (Table, bool) {
    if f !in p.offsets then (t, false)
    else
      var hooks := HooksOf(t, f);
      if !HasDetour(hooks, d) then (t.(hooks := t.hooks[f := hooks]), false)
      else (SetAll(p, Torn(t, f), f, Remaining(hooks, d)), true)
  }

  // ---------------------------------------------------------------- setting

  lemma {:induction false} NextTargetIsNew(p: Program, t: Table, f: string, g: string, j: nat)
    requires Valid(p, t) && f in p.offsets && g in t.hooks && j < |t.hooks[g]|
    ensures t.hooks[g][j].target != NextTarget(p, t, f)
  {
  }

  lemma {:induction false} NextTargetIsFree(p: Program, t: Table, f: string)
    requires Valid(p, t) && f in p.offsets
    ensures NextTarget(p, t, f) !in t.patches
  {
    if NextTarget(p, t, f) in t.patches {
      assert Targeted(t, NextTarget(p, t, f));
      var g, j :| g in t.hooks && 0 <= j < |t.hooks[g]| && t.hooks[g][j].target == NextTarget(p, t, f);
      NextTargetIsNew(p, t, f, g, j);
    }
  }

  /** What a successful call adds: one hook at the end of one list. */
  predicate Extends(t: Table, u: Table, f: string, h: Hook) {
    && u.hooks == t.hooks[f := HooksOf(t, f) + [h]]
    && u.patches == t.patches[h.target := h.detour]
    && u.cells == t.cells[h.original := h.target]
  }

  lemma {:induction false} OldHooks(t: Table, u: Table, f: string, h: Hook, g: string, i: nat)
    requires Extends(t, u, f, h) && g in u.hooks && i < |u.hooks[g]|
    ensures (g == f && i == |HooksOf(t, f)| && u.hooks[g][i] == h)
            || (g in t.hooks && i < |t.hooks[g]| && u.hooks[g][i] == t.hooks[g][i])
  {
  }

  lemma {:induction false} ExtendsInstalled(p: Program, t: Table, u: Table, f: string, h: Hook)
    requires Valid(p, t) && Extends(t, u, f, h) && f in p.offsets
    requires h.detour in p.code && p.code[h.detour] == h.original
    requires h.target !in t.patches && !Registered(t, h.detour)
    ensures AllInstalled(p, u) && DetoursDistinct(u)
  {
    hide AllLinked, Linked, AllTargeted;
    forall g, i | g in u.hooks && 0 <= i < |u.hooks[g]|
      ensures Installed(p, u, u.hooks[g][i])
    {
      OldHooks(t, u, f, h, g, i);
      if u.hooks[g][i] != h {
        assert Installed(p, t, t.hooks[g][i]);
        assert t.hooks[g][i].detour != h.detour;
      }
    }
    forall g, i, k, j | (g in u.hooks && k in u.hooks && 0 <= i < |u.hooks[g]| && 0 <= j < |u.hooks[k]|
                         && u.hooks[g][i].detour == u.hooks[k][j].detour)
      ensures g == k && i == j
    {
      OldHooks(t, u, f, h, g, i);
      OldHooks(t, u, f, h, k, j);
    }
  }

  lemma {:induction false} ExtendsTargeted(t: Table, u: Table, f: string, h: Hook)
    requires AllTargeted(t) && Extends(t, u, f, h)
    ensures AllTargeted(u)
  {
    forall a | a in u.patches
      ensures Targeted(u, a)
    {
      if a == h.target {
        assert u.hooks[f][|HooksOf(t, f)|].target == a;
      } else {
        assert Targeted(t, a);
        var g, j :| g in t.hooks && 0 <= j < |t.hooks[g]| && t.hooks[g][j].target == a;
        assert u.hooks[g][j].target == a;
      }
    }
  }

  lemma {:induction false} ExtendsLinked(p: Program, t: Table, u: Table, f: string, h: Hook)
    requires AllLinked(p, t) && Extends(t, u, f, h) && f in p.offsets && h.target == NextTarget(p, t, f)
    ensures AllLinked(p, u)
  {
  }

  /** With a detour that is not registered yet, setting a hook succeeds and keeps every chain. */
  lemma {:induction false} SetHookValid(p: Program, t: Table, f: string, d: Address)
    requires Valid(p, t) && d in p.code && !Registered(t, d)
    ensures SetHook(p, t, f, d, p.code[d]).1 <==> f in p.offsets
    ensures Valid(p, SetHook(p, t, f, d, p.code[d]).0)
    ensures f in p.offsets ==>
              Extends(t, SetHook(p, t, f, d, p.code[d]).0, f, Hook(NextTarget(p, t, f), d, p.code[d]))
  {
    hide WellFormed, AllLinked, AllInstalled, DetoursDistinct, AllTargeted, Registered, NextTarget;
    if f in p.offsets {
      NextTargetIsFree(p, t, f);
      var u := SetHook(p, t, f, d, p.code[d]).0;
      var h := Hook(NextTarget(p, t, f), d, p.code[d]);
      ExtendsInstalled(p, t, u, f, h);
      ExtendsTargeted(t, u, f, h);
      ExtendsLinked(p, t, u, f, h);
    }
  }

  /** Setting the same detour twice on a function hooks the detour onto itself. */
  lemma {:induction false} SetTwiceLoops()
    ensures var p := Program(map["f" := 1], map[2 := 0]);
            var once := SetHook(p, Table(map[], map[], map[]), "f", 2, 0).0;
            var (twice, ok) := SetHook(p, once, "f", 2, 0);
            ok && twice.patches[2] == 2
  {
  }

  // ---------------------------------------------------------------- disabling

  lemma {:induction false} OtherTargets(p: Program, t: Table, f: string, g: string, i: nat)
    requires Valid(p, t) && g in t.hooks && i < |t.hooks[g]| && g != f
    ensures t.hooks[g][i].target !in Targets(HooksOf(t, f))
  {
  }

  lemma {:induction false} TornHooks(t: Table, f: string, g: string)
    requires g in Torn(t, f).hooks && Torn(t, f).hooks[g] != []
    ensures g != f && g in t.hooks && Torn(t, f).hooks[g] == t.hooks[g]
  {
  }

  lemma {:induction false} InstalledHook(p: Program, t: Table, g: string, i: nat)
    requires Valid(p, t) && g in t.hooks && i < |t.hooks[g]|
    ensures Installed(p, t, t.hooks[g][i])
  {
  }

  lemma {:induction false} TornInstalled(p: Program, t: Table, f: string)
    requires Valid(p, t)
    ensures AllInstalled(p, Torn(t, f))
  {
    hide Valid, Torn, Targets;
    var u := Torn(t, f);
    forall g, i | g in u.hooks && 0 <= i < |u.hooks[g]|
      ensures Installed(p, u, u.hooks[g][i])
    {
      TornHooks(t, f, g);
      InstalledHook(p, t, g, i);
      OtherTargets(p, t, f, g, i);
      TornKeeps(t, f, t.hooks[g][i].target);
    }
  }

  lemma {:induction false} TornKeeps(t: Table, f: string, a: Address)
    requires a !in Targets(HooksOf(t, f)) && a in t.patches
    ensures var u := Torn(t, f);
            a in u.patches && u.patches[a] == t.patches[a] && u.cells == t.cells
  {
  }

  lemma {:induction false} TornTargeted(t: Table, f: string)
    requires AllTargeted(t)
    ensures AllTargeted(Torn(t, f))
  {
    var u := Torn(t, f);
    forall a | a in u.patches
      ensures Targeted(u, a)
    {
      assert Targeted(t, a);
      var g, j :| g in t.hooks && 0 <= j < |t.hooks[g]| && t.hooks[g][j].target == a;
      assert g != f;
      assert u.hooks[g][j].target == a;
    }
  }

  lemma {:induction false} TornLinked(p: Program, t: Table, f: string)
    requires AllLinked(p, t) && DetoursDistinct(t) && f in p.offsets
    ensures AllLinked(p, Torn(t, f)) && DetoursDistinct(Torn(t, f))
  {
    hide Targets;
    var u := Torn(t, f);
    assert forall g :: g in u.hooks && g != f ==> g in t.hooks && u.hooks[g] == t.hooks[g];
  }

  lemma {:induction false} TornValid(p: Program, t: Table, f: string)
    requires Valid(p, t) && f in p.offsets
    ensures Valid(p, Torn(t, f))
  {
    hide Torn, WellFormed, AllLinked, AllInstalled, DetoursDistinct, AllTargeted;
    TornInstalled(p, t, f);
    TornTargeted(t, f);
    TornLinked(p, t, f);
  }

  /** The same detours chained onto `entry` in order. */
  function Rechained(entry: Address, hooks: seq<Hook>): (r: seq<Hook>)
    ensures |r| == |hooks|
  {
    seq(|hooks|, i requires 0 <= i < |hooks| => Hook(Previous(entry, hooks, i), hooks[i].detour, hooks[i].original))
  }

  /** Hooks whose detours can be registered on top of `t`. */
  predicate Registrable(p: Program, t: Table, hooks: seq<Hook>) {
    && (forall i :: 0 <= i < |hooks| ==>
          && hooks[i].detour in p.code && p.code[hooks[i].detour] == hooks[i].original
          && !Registered(t, hooks[i].detour))
    && (forall i, j :: 0 <= i < j < |hooks| ==> hooks[i].detour != hooks[j].detour)
  }

  lemma {:induction false} StillUnregistered(t: Table, u: Table, f: string, entry: Address, hooks: seq<Hook>, d: Address)
    requires f in t.hooks && u.hooks == t.hooks[f := Rechained(entry, hooks)]
    requires !Registered(t, d) && forall i :: 0 <= i < |hooks| ==> hooks[i].detour != d
    ensures !Registered(u, d)
  {
  }

  lemma {:induction false} RechainedMore(entry: Address, hooks: seq<Hook>)
    requires hooks != []
    ensures var n := |hooks| - 1;
            var less := Rechained(entry, hooks[..n]);
            Rechained(entry, hooks) == less + [Hook(Previous(entry, less, n), hooks[n].detour, hooks[n].original)]
  {
  }

  /** Registering detours one after the other on an unhooked function builds their chain. */
  lemma {:induction false} SetAllChains(p: Program, t: Table, f: string, hooks: seq<Hook>)
    requires Valid(p, t) && f in t.hooks && t.hooks[f] == [] && Registrable(p, t, hooks)
    ensures f in p.offsets && Valid(p, SetAll(p, t, f, hooks))
    ensures SetAll(p, t, f, hooks).hooks == t.hooks[f := Rechained(p.offsets[f], hooks)]
  {
    hide AllInstalled, DetoursDistinct, AllTargeted, WellFormed, Registered, Rechained, SetHook;
    var entry := p.offsets[f];
    if hooks == [] {
      assert Rechained(entry, hooks) == [];
      assert t.hooks[f := []] == t.hooks;
    } else {
      var n := |hooks| - 1;
      SetAllChains(p, t, f, hooks[..n]);
      var u := SetAll(p, t, f, hooks[..n]);
      StillUnregistered(t, u, f, entry, hooks[..n], hooks[n].detour);
      SetHookValid(p, u, f, hooks[n].detour);
      assert HooksOf(u, f) == Rechained(entry, hooks[..n]);
      RechainedMore(entry, hooks);
    }
  }

  lemma {:induction false} RemainingRegistrable(p: Program, t: Table, f: string, d: Address)
    requires Valid(p, t) && f in t.hooks && HasDetour(t.hooks[f], d)
    ensures Registrable(p, Torn(t, f), Remaining(t.hooks[f], d))
  {
    hide AllLinked, AllTargeted, WellFormed;
    var hooks := t.hooks[f];
    var k := DetourFrom(hooks, d, 0);
    var rest := Remaining(hooks, d);
    var u := Torn(t, f);
    forall i | 0 <= i < |rest|
      ensures rest[i] == hooks[if i < k then i else i + 1]
      ensures rest[i].detour in p.code && p.code[rest[i].detour] == rest[i].original
      ensures !Registered(u, rest[i].detour)
    {
      var j := if i < k then i else i + 1;
      assert rest[i] == hooks[j];
      assert Installed(p, t, t.hooks[f][j]);
      forall g, m | g in u.hooks && 0 <= m < |u.hooks[g]|
        ensures u.hooks[g][m].detour != rest[i].detour
      {
        assert g != f && t.hooks[g][m].detour != t.hooks[f][j].detour;
      }
    }
  }

  /** DisableHook leaves the chain of the remaining detours in their order, and the chains of
      all other functions as they were. */
  lemma {:induction false} DisableHookValid(p: Program, t: Table, f: string, d: Address)
    requires Valid(p, t)
    ensures var (u, ok) := DisableHook(p, t, f, d);
            && Valid(p, u)
            && (ok <==> HasDetour(HooksOf(t, f), d))
            && (ok ==> f in p.offsets && u.hooks == t.hooks[f := Rechained(p.offsets[f], Remaining(t.hooks[f], d))])
            && (!ok ==> u.patches == t.patches && forall g :: HooksOf(u, g) == HooksOf(t, g))
  {
    hide AllInstalled, DetoursDistinct, WellFormed, Registrable, Remaining, Targets;
    if f in p.offsets {
      if HasDetour(HooksOf(t, f), d) {
        TornValid(p, t, f);
        RemainingRegistrable(p, t, f, d);
        SetAllChains(p, Torn(t, f), f, Remaining(t.hooks[f], d));
      } else {
        SameHooksValid(p, t, t.(hooks := t.hooks[f := HooksOf(t, f)]), f);
      }
    }
  }

  function Detours(hooks: seq<Hook>): (r: seq<Address>)
    ensures |r| == |hooks|
  {
    seq(|hooks|, i requires 0 <= i < |hooks| => hooks[i].detour)
  }

  /** Dropping the only occurrence. */
  lemma {:induction false} ExceptOnce(a: seq<Address>, d: Address, b: seq<Address>)
    requires d !in a && d !in b
    ensures Except(a + ([d] + b), d) == a + b
  {
    ExceptConcat(a, [d] + b, d);
    ExceptConcat([d], b, d);
    ExceptAbsent(a, d);
    ExceptAbsent(b, d);
    ExceptRun([d], d);
    assert [] + b == b;
  }

  lemma {:induction false} DetoursConcat(a: seq<Hook>, b: seq<Hook>)
    ensures Detours(a + b) == Detours(a) + Detours(b)
  {
  }

  lemma {:induction false} DetoursLack(hooks: seq<Hook>, d: Address)
    requires forall i :: 0 <= i < |hooks| ==> hooks[i].detour != d
    ensures d !in Detours(hooks)
  {
  }

  lemma {:induction false} DetoursOne(h: Hook)
    ensures Detours([h]) == [h.detour]
  {
  }

  lemma {:induction false} DetourParts(hooks: seq<Hook>, k: nat)
    requires k < |hooks|
    ensures Detours(hooks) == Detours(hooks[..k]) + ([hooks[k].detour] + Detours(hooks[k + 1..]))
    ensures Detours(hooks[..k] + hooks[k + 1..]) == Detours(hooks[..k]) + Detours(hooks[k + 1..])
  {
    hide Detours;
    var low, high := hooks[..k], hooks[k + 1..];
    assert hooks == low + ([hooks[k]] + high);
    DetoursOne(hooks[k]);
    DetoursConcat([hooks[k]], high);
    DetoursConcat(low, [hooks[k]] + high);
    DetoursConcat(low, high);
  }

  lemma {:induction false} RemainingDetours(hooks: seq<Hook>, d: Address)
    requires forall i, j :: 0 <= i < j < |hooks| ==> hooks[i].detour != hooks[j].detour
    requires HasDetour(hooks, d)
    ensures Detours(Remaining(hooks, d)) == Except(Detours(hooks), d)
  {
    hide Detours, Except;
    var k := DetourFrom(hooks, d, 0);
    DetoursLack(hooks[..k], d);
    DetoursLack(hooks[k + 1..], d);
    DetourParts(hooks, k);
    ExceptOnce(Detours(hooks[..k]), d, Detours(hooks[k + 1..]));
  }

  lemma {:induction false} DistinctInList(p: Program, t: Table, f: string)
    requires Valid(p, t) && f in t.hooks
    ensures forall i, j :: 0 <= i < j < |t.hooks[f]| ==> t.hooks[f][i].detour != t.hooks[f][j].detour
  {
  }

  /** A successful DisableHook takes exactly this detour from the function and leaves the others in
      their order. */
  lemma {:induction false} DisableTakesOne(p: Program, t: Table, f: string, d: Address)
    requires Valid(p, t) && HasDetour(HooksOf(t, f), d)
    ensures Detours(HooksOf(DisableHook(p, t, f, d).0, f)) == Except(Detours(HooksOf(t, f)), d)
  {
    hide Valid, HasDetour, DisableHook, Remaining, Except, Detours;
    DisableHookValid(p, t, f, d);
    HookedFunction(t, f, d);
    DistinctInList(p, t, f);
    RemainingDetours(t.hooks[f], d);
    RechainedDetours(p.offsets[f], Remaining(t.hooks[f], d));
  }

  lemma {:induction false} HookedFunction(t: Table, f: string, d: Address)
    requires HasDetour(HooksOf(t, f), d)
    ensures f in t.hooks
  {
  }

  lemma {:induction false} RechainedDetours(entry: Address, hooks: seq<Hook>)
    ensures Detours(Rechained(entry, hooks)) == Detours(hooks)
  {
  }

  lemma {:induction false} SameHooksTargeted(t: Table, u: Table, f: string)
    requires AllTargeted(t) && u == t.(hooks := t.hooks[f := HooksOf(t, f)])
    ensures AllTargeted(u)
  {
    forall a | a in u.patches
      ensures Targeted(u, a)
    {
      assert Targeted(t, a);
      var g, j :| g in t.hooks && 0 <= j < |t.hooks[g]| && t.hooks[g][j].target == a;
      assert u.hooks[g][j].target == a;
    }
  }

  lemma {:induction false} SameHooksValid(p: Program, t: Table, u: Table, f: string)
    requires Valid(p, t) && f in p.offsets
    requires u == t.(hooks := t.hooks[f := HooksOf(t, f)])
    ensures Valid(p, u)
  {
    hide AllTargeted, WellFormed;
    SameHooksTargeted(t, u, f);
    forall g, i | g in u.hooks && 0 <= i < |u.hooks[g]|
      ensures g in t.hooks && u.hooks[g] == t.hooks[g] && Installed(p, u, u.hooks[g][i])
    {
      assert Installed(p, t, t.hooks[g][i]);
    }
  }

  lemma {:induction false} PatchesWithin(p: Program, t: Table, u: Table)
    requires Valid(p, t) && Valid(p, u) && t.hooks == u.hooks
    ensures forall a :: a in t.patches ==> a in u.patches && u.patches[a] == t.patches[a]
  {
  }

  /** The registered hooks determine the patch table. */
  lemma {:induction false} PatchesDetermined(p: Program, t: Table, u: Table)
    requires Valid(p, t) && Valid(p, u) && t.hooks == u.hooks
    ensures t.patches == u.patches
  {
    hide Valid;
    PatchesWithin(p, t, u);
    PatchesWithin(p, u, t);
  }

  /** Disabling a hook is the same as never having set it: lists and patches are those of
      registering the remaining detours afresh, in order, on a table whose other chains are the
      same. */
  lemma {:induction false} DisableIsFresh(p: Program, t: Table, f: string, d: Address, blank: Table)
    requires Valid(p, t) && f in t.hooks && HasDetour(t.hooks[f], d)
    requires Valid(p, blank) && blank.hooks == t.hooks[f := []]
    ensures var u := DisableHook(p, t, f, d).0;
            var afresh := SetAll(p, blank, f, Remaining(t.hooks[f], d));
            u.hooks == afresh.hooks && u.patches == afresh.patches
  {
    hide WellFormed, AllInstalled, DetoursDistinct, AllTargeted, AllLinked, Remaining, Rechained, Targets;
    DisableHookValid(p, t, f, d);
    RemainingRegistrable(p, t, f, d);
    assert Registrable(p, blank, Remaining(t.hooks[f], d)) by {
      SameRegistered(Torn(t, f), blank);
    }
    SetAllChains(p, blank, f, Remaining(t.hooks[f], d));
    PatchesDetermined(p, DisableHook(p, t, f, d).0, SetAll(p, blank, f, Remaining(t.hooks[f], d)));
  }

  lemma {:induction false} SameRegistered(t: Table, u: Table)
    requires t.hooks == u.hooks
    ensures forall d :: Registered(t, d) <==> Registered(u, d)
  {
  }

  // ---------------------------------------------------------------- calls

  /** A jump to `path[0]` lands in the body of the last address. */
  predicate Jumps(t: Table, path: seq<Address>) {
    && path != []
    && (forall i :: 0 <= i < |path| - 1 ==> path[i] in t.patches && path[i + 1] == t.patches[path[i]])
    && path[|path| - 1] !in t.patches
  }

  /** Bodies in the order in which they run, each calling the next through its variable. */
  predicate Runs(p: Program, t: Table, trace: seq<Address>) {
    && trace != []
    && (forall i :: 0 <= i < |trace| - 1 ==>
          trace[i] in p.code && p.code[trace[i]] in t.cells && trace[i + 1] == t.cells[p.code[trace[i]]])
    && trace[|trace| - 1] !in p.code
  }

  lemma {:induction false} JumpsUnique(t: Table, a: seq<Address>, b: seq<Address>)
    requires Jumps(t, a) && Jumps(t, b) && a[0] == b[0]
    ensures a == b
  {
    if |a| == 1 {
    } else {
      assert a[0] in t.patches;
      assert |b| > 1 && b[0 + 1] == t.patches[b[0]] && a[0 + 1] == t.patches[a[0]];
      TailJumps(t, a);
      TailJumps(t, b);
      JumpsUnique(t, a[1..], b[1..]);
      assert a == [a[0]] + a[1..] && b == [b[0]] + b[1..];
    }
  }

  lemma {:induction false} TailJumps(t: Table, a: seq<Address>)
    requires Jumps(t, a) && |a| > 1
    ensures Jumps(t, a[1..])
  {
  }

  lemma {:induction false} RunsUnique(p: Program, t: Table, a: seq<Address>, b: seq<Address>)
    requires Runs(p, t, a) && Runs(p, t, b) && a[0] == b[0]
    ensures a == b
  {
    if |a| == 1 {
    } else {
      assert a[0] in p.code;
      assert |b| > 1 && b[0 + 1] == t.cells[p.code[b[0]]] && a[0 + 1] == t.cells[p.code[a[0]]];
      TailRuns(p, t, a);
      TailRuns(p, t, b);
      RunsUnique(p, t, a[1..], b[1..]);
      assert a == [a[0]] + a[1..] && b == [b[0]] + b[1..];
    }
  }

  lemma {:induction false} TailRuns(p: Program, t: Table, a: seq<Address>)
    requires Runs(p, t, a) && |a| > 1
    ensures Runs(p, t, a[1..])
  {
  }

  /** A call of address `a` runs the bodies of `trace`. */
  ghost predicate CallRuns(p: Program, t: Table, a: Address, trace: seq<Address>) {
    Runs(p, t, trace) && exists path :: Jumps(t, path) && path[0] == a && path[|path| - 1] == trace[0]
  }

  function EntryPath(entry: Address, hooks: seq<Hook>): (r: seq<Address>)
    ensures |r| == |hooks| + 1
  {
    seq(|hooks| + 1, i requires 0 <= i <= |hooks| => Previous(entry, hooks, i))
  }

  /** Last registered first, the original function at the end. */
  function ReverseOrder(entry: Address, hooks: seq<Hook>): (r: seq<Address>)
    ensures |r| == |hooks| + 1
  {
    seq(|hooks| + 1, i requires 0 <= i <= |hooks| => Previous(entry, hooks, |hooks| - i))
  }

  lemma {:induction false} HookFacts(p: Program, t: Table, f: string, k: nat)
    requires Valid(p, t) && f in p.offsets && k < |HooksOf(t, f)|
    ensures var hooks := HooksOf(t, f);
            && Installed(p, t, hooks[k])
            && hooks[k].target == Previous(p.offsets[f], hooks, k)
            && hooks[k].detour == Previous(p.offsets[f], hooks, k + 1)
  {
  }

  lemma {:induction false} EntryJumps(p: Program, t: Table, f: string)
    requires Valid(p, t) && f in p.offsets
    ensures Jumps(t, EntryPath(p.offsets[f], HooksOf(t, f)))
  {
    hide Valid;
    var path := EntryPath(p.offsets[f], HooksOf(t, f));
    NextTargetIsFree(p, t, f);
    forall i | 0 <= i < |path| - 1
      ensures path[i] in t.patches && path[i + 1] == t.patches[path[i]]
    {
      HookFacts(p, t, f, i);
    }
  }

  lemma {:induction false} ReverseRuns(p: Program, t: Table, f: string)
    requires Valid(p, t) && f in p.offsets
    ensures Runs(p, t, ReverseOrder(p.offsets[f], HooksOf(t, f)))
  {
    hide AllLinked, AllInstalled, AllTargeted, DetoursDistinct;
    var hooks := HooksOf(t, f);
    var trace := ReverseOrder(p.offsets[f], hooks);
    forall i | 0 <= i < |trace| - 1
      ensures trace[i] in p.code && p.code[trace[i]] in t.cells && trace[i + 1] == t.cells[p.code[trace[i]]]
    {
      HookFacts(p, t, f, |hooks| - i - 1);
    }
    assert trace[|hooks|] == Previous(p.offsets[f], hooks, |hooks| - |hooks|) == p.offsets[f];
  }

  /** A call of a hooked function runs the detours in reverse order of registration and ends at
      the original function, and nothing else. */
  lemma {:induction false} CallOrder(p: Program, t: Table, f: string, trace: seq<Address>)
    requires Valid(p, t) && f in p.offsets
    ensures CallRuns(p, t, p.offsets[f], trace) <==> trace == ReverseOrder(p.offsets[f], HooksOf(t, f))
  {
    hide Valid, Jumps, Runs;
    var entry, hooks := p.offsets[f], HooksOf(t, f);
    var path := EntryPath(entry, hooks);
    EntryJumps(p, t, f);
    ReverseRuns(p, t, f);
    assert path[0] == entry && path[|path| - 1] == ReverseOrder(entry, hooks)[0];
    if CallRuns(p, t, entry, trace) {
      CallStart(p, t, entry, trace, path);
      RunsUnique(p, t, trace, ReverseOrder(entry, hooks));
    }
  }

  lemma {:induction false} CallStart(p: Program, t: Table, a: Address, trace: seq<Address>, path: seq<Address>)
    requires CallRuns(p, t, a, trace) && Jumps(t, path) && path[0] == a
    ensures Runs(p, t, trace) && trace[0] == path[|path| - 1]
  {
    var other :| Jumps(t, other) && other[0] == a && other[|other| - 1] == trace[0];
    JumpsUnique(t, path, other);
  }

  /** Every function calls its hooks last registered first. */
  ghost predicate CallsInOrder(p: Program, t: Table) {
    forall g :: g in p.offsets ==> CallRuns(p, t, p.offsets[g], ReverseOrder(p.offsets[g], HooksOf(t, g)))
  }

  /** Setting a registered detour again overwrites the variable through which it calls on, so the
      chain that it was part of no longer runs in order. */
  lemma {:induction false} OverwrittenVariable(p: Program, t: Table, f: string, d: Address, g: string, i: nat)
    requires Valid(p, t) && f in p.offsets && d in p.code
    requires g in t.hooks && i < |t.hooks[g]| && t.hooks[g][i].detour == d
    ensures g in p.offsets
    ensures var u := SetHook(p, t, f, d, p.code[d]).0;
            !Runs(p, u, ReverseOrder(p.offsets[g], HooksOf(u, g)))
  {
    hide AllInstalled, AllTargeted, DetoursDistinct;
    var u := SetHook(p, t, f, d, p.code[d]).0;
    NextTargetIsFree(p, t, f);
    NextTargetIsNew(p, t, f, g, i);
    HookFacts(p, t, g, i);
    var entry, hooks := p.offsets[g], HooksOf(u, g);
    var trace := ReverseOrder(entry, hooks);
    var k := |hooks| - 1 - i;
    assert hooks[..|t.hooks[g]|] == t.hooks[g];
    assert hooks[i] == t.hooks[g][i] && (i > 0 ==> hooks[i - 1] == t.hooks[g][i - 1]);
    assert trace[k] == Previous(entry, hooks, i + 1) == d;
    assert trace[k + 1] == Previous(entry, hooks, i) == t.hooks[g][i].target;
    assert trace[k + 1] != u.cells[p.code[trace[k]]];
  }

  /** Freshness of the detour is exactly what keeps the calls of every function in order, and the
      chains linked and installed. */
  lemma {:induction false} SetHookKeepsChainsIff(p: Program, t: Table, f: string, d: Address)
    requires Valid(p, t) && f in p.offsets && d in p.code
    ensures CallsInOrder(p, SetHook(p, t, f, d, p.code[d]).0) <==> !Registered(t, d)
    ensures Valid(p, SetHook(p, t, f, d, p.code[d]).0) <==> !Registered(t, d)
  {
    hide Valid, Runs, ReverseOrder, SetHook;
    var u := SetHook(p, t, f, d, p.code[d]).0;
    if !Registered(t, d) {
      SetHookValid(p, t, f, d);
      ValidCallsInOrder(p, u);
    } else {
      var g, i :| g in t.hooks && 0 <= i < |t.hooks[g]| && t.hooks[g][i].detour == d;
      OverwrittenVariable(p, t, f, d, g, i);
      assert !CallRuns(p, u, p.offsets[g], ReverseOrder(p.offsets[g], HooksOf(u, g)));
      if Valid(p, u) {
        ValidCallsInOrder(p, u);
      }
    }
  }

  lemma {:induction false} ValidCallsInOrder(p: Program, t: Table)
    requires Valid(p, t)
    ensures CallsInOrder(p, t)
  {
    hide Valid, CallRuns, ReverseOrder;
    forall g | g in p.offsets
      ensures CallRuns(p, t, p.offsets[g], ReverseOrder(p.offsets[g], HooksOf(t, g)))
    {
      CallOrder(p, t, g, ReverseOrder(p.offsets[g], HooksOf(t, g)));
    }
  }

  // ---------------------------------------------------------------- runs

  datatype Request = Set(f: string, d: Address) | Disable(f: string, d: Address)

  /** Only detours of the program that are not registered yet are set. */
  predicate Legal(p: Program, t: Table, r: Request) {
    r.Set? ==> r.d in p.code && !Registered(t, r.d)
  }

  function Serve(p: Program, t: Table, r: Request): Table
    requires Legal(p, t, r)
  {
    match r
    case Set(f, d) => SetHook(p, t, f, d, p.code[d]).0
    case Disable(f, d) => DisableHook(p, t, f, d).0
  }

  /** `run` is the sequence of tables that serving `rs` goes through. */
  predicate IsRun(p: Program, rs: seq<Request>, run: seq<Table>) {
    && |run| == |rs| + 1
    && run[0] == Table(map[], map[], map[])
    && forall i :: 0 <= i < |rs| ==> Legal(p, run[i], rs[i]) && run[i + 1] == Serve(p, run[i], rs[i])
  }

  /** After any run every function's chain is linked and a call runs it last registered first. */
  lemma {:induction false} EveryRunKeepsChains(p: Program, rs: seq<Request>, run: seq<Table>, k: nat, f: string, trace: seq<Address>)
    requires WellFormed(p) && IsRun(p, rs, run) && k <= |rs| && f in p.offsets
    ensures Valid(p, run[k])
    ensures CallRuns(p, run[k], p.offsets[f], trace) <==> trace == ReverseOrder(p.offsets[f], HooksOf(run[k], f))
    decreases k
  {
    hide AllInstalled, DetoursDistinct, AllTargeted, AllLinked, CallRuns, ReverseOrder, Registered;
    if k == 0 {
      EmptyValid(p);
    } else {
      EveryRunKeepsChains(p, rs, run, k - 1, f, trace);
      assert Legal(p, run[k - 1], rs[k - 1]) && run[(k - 1) + 1] == Serve(p, run[k - 1], rs[k - 1]);
      match rs[k - 1]
      case Set(g, d) => SetHookValid(p, run[k - 1], g, d);
      case Disable(g, d) => DisableHookValid(p, run[k - 1], g, d);
    }
    CallOrder(p, run[k], f, trace);
  }

  lemma {:induction false} EmptyValid(p: Program)
    requires WellFormed(p)
    ensures Valid(p, Table(map[], map[], map[]))
  {
  }

  // ---------------------------------------------------------------- the class

  class HookManager {
    const program: Program
    var hooks: map<string, seq<Hook>>
    var patches: map<Address, Address>
    var cells: map<Cell, Address>

    ghost function View(): Table
      reads this
    {
      Table(hooks, patches, cells)
    }

    constructor (p: Program)
      ensures program == p && View() == Table(map[], map[], map[])
    {
      program := p;
      hooks, patches, cells := map[], map[], map[];
    }

    /** MinHook refuses a target that already has a hook; otherwise `*original` receives the
        trampoline. */
    method CreateHook(target: Address, detour: Address, original: Cell) returns (ok: bool)
      modifies this`patches, this`cells
      ensures ok <==> target !in old(patches)
      ensures patches == if ok then old(patches)[target := detour] else old(patches)
      ensures cells == if ok then old(cells)[original := target] else old(cells)
    {
      ok := target !in patches;
      if ok {
        patches := patches[target := detour];
        cells := cells[original := target];
      }
    }

    method SetHookInternal(f: string, detour: Address, original: Cell) returns (ok: bool)
      modifies this`hooks, this`patches, this`cells
      ensures (View(), ok) == SetHook(program, old(View()), f, detour, original)
    {
      if f !in program.offsets {
        return false;
      }
      var list := if f in hooks then hooks[f] else [];
      var target := if list == [] then program.offsets[f] else list[|list| - 1].detour;
      hooks := hooks[f := list + [Hook(target, detour, original)]];
      ok := CreateHook(target, detour, original);
    }

    /** `MH_RemoveHook` on every hook of the list; all of them are installed. */
    method TearDown(list: seq<Hook>) returns (ok: bool)
      requires forall i :: 0 <= i < |list| ==> list[i].target in patches
      requires forall i, j :: 0 <= i < j < |list| ==> list[i].target != list[j].target
      modifies this`patches
      ensures ok && patches == old(patches) - Targets(list)
    {
      ghost var was := patches;
      var i := 0;
      assert was - Targets(list[..0]) == was;
      while i < |list|
        invariant i <= |list|
        invariant patches == was - Targets(list[..i])
      {
        MoreTargets(list, i);
        if list[i].target !in patches {
          return false;
        }
        patches := patches - {list[i].target};
        i := i + 1;
      }
      assert list[..i] == list;
      ok := true;
    }

    /** The loop that enables the remaining hooks again. */
    method SetAgain(f: string, rest: seq<Hook>)
      modifies this`hooks, this`patches, this`cells
      ensures View() == SetAll(program, old(View()), f, rest)
    {
      hide SetHook;
      ghost var t := View();
      var i := 0;
      while i < |rest|
        invariant i <= |rest|
        invariant View() == SetAll(program, t, f, rest[..i])
      {
        assert rest[..i + 1][..i] == rest[..i];
        var _ := SetHookInternal(f, rest[i].detour, rest[i].original);
        i := i + 1;
      }
      assert rest[..i] == rest;
    }

    static method FindDetour(list: seq<Hook>, detour: Address) returns (k: nat)
      ensures k == DetourFrom(list, detour, 0)
      ensures k < |list| <==> HasDetour(list, detour)
    {
      k := 0;
      while k < |list| && list[k].detour != detour
        invariant k <= |list|
        invariant forall i :: 0 <= i < k ==> list[i].detour != detour
      {
        k := k + 1;
      }
    }

    method DisableHookOf(f: string, detour: Address) returns (ok: bool)
      requires Valid(program, View())
      modifies this`hooks, this`patches, this`cells
      ensures (View(), ok) == DisableHook(program, old(View()), f, detour)
      ensures Valid(program, View())
    {
      hide Valid, HasDetour, SetAll, Targets, Rechained, ErasedAliased, Except, Distinct;
      DisableHookValid(program, View(), f, detour);
      if f !in program.offsets {
        return false;
      }
      ghost var t := View();
      var list := if f in hooks then hooks[f] else [];
      hooks := hooks[f := list];
      var k := FindDetour(list, detour);
      if k == |list| {
        return false;
      }
      ListInstalled(program, t, f);
      var _ := TearDown(list);
      ErasedDistinct(list, k);
      var rest := EraseRemove(list, k);
      hooks := hooks[f := []];
      assert View() == Torn(t, f);
      SetAgain(f, rest);
      ok := true;
    }
  }

  lemma {:induction false} MoreTargets(list: seq<Hook>, i: nat)
    requires i < |list| && forall i, j :: 0 <= i < j < |list| ==> list[i].target != list[j].target
    ensures Targets(list[..i + 1]) == Targets(list[..i]) + {list[i].target}
    ensures list[i].target !in Targets(list[..i])
  {
  }

  lemma {:induction false} ListInstalled(p: Program, t: Table, f: string)
    requires Valid(p, t)
    ensures var list := HooksOf(t, f);
            && Distinct(list)
            && (forall i :: 0 <= i < |list| ==> list[i].target in t.patches)
            && (forall i, j :: 0 <= i < j < |list| ==> list[i].target != list[j].target)
  {
  }
}
