/**
 Whole programs over the memoising allocator: they see what direct evaluation
 gives, up to the first operation that takes flagged outputs for its results.
 */
module Programs {
  import opened Bits
  import opened Words
  import opened Trie
  import opened CacheSpec
  import opened Memory
  import C = Cache

  // A matrix as a caller sees it.
  datatype View = View(data: Content, sig: nat, reusable: bool)

  function ViewOf(m: Matrix): View { View(m.data, m.sig, m.reusable) }

  // An output of an operation: what it is of the sources, the caller's name for
  // it, and its signature.
  datatype Target = Target(f: seq<Content> -> Content, dst: nat, sig: nat)

  // `Operate` is any operation of the library on any number of sources and
  // outputs; the gradient also has memoised matrices of its own.
  datatype Command =
    | Load(dst: nat, data: Content)
    | Operate(style: Style, srcs: seq<nat>, outs: seq<Target>)
    | ComputeGradient(fx: Content -> Content, fy: Content -> Content,
                      theta: (Content, Content) -> Content, mag: (Content, Content) -> Content,
                      src: nat, first: Target, second: Target, xsig: nat, ysig: nat)
    | Unseal(h: nat)
    | Seal(h: nat, sig: nat)
    | Write(h: nat, data: Content)
    | Release(h: nat)
    | DrainCache
    | DisableCache
    | EnableCache(size: nat)

  predicate IsOperation(cmd: Command) { cmd.Operate? || cmd.ComputeGradient? }

  function StyleOf(cmd: Command): Style
    requires IsOperation(cmd)
  {
    if cmd.Operate? then cmd.style else Revives
  }

  function Sources(cmd: Command): seq<nat>
    requires IsOperation(cmd)
  {
    if cmd.Operate? then cmd.srcs else [cmd.src]
  }

  function Outs(cmd: Command): seq<Target>
    requires IsOperation(cmd)
  {
    if cmd.Operate? then cmd.outs else [cmd.first, cmd.second]
  }

  function Args(env: map<nat, View>, srcs: seq<nat>): seq<Content> {
    seq(|srcs|, k requires 0 <= k < |srcs| => if srcs[k] in env then env[srcs[k]].data else [])
  }

  // What the k-th output should hold.
  function Value(env: map<nat, View>, cmd: Command, k: nat): Content
    requires IsOperation(cmd) && k < |Outs(cmd)|
  {
    Outs(cmd)[k].f(Args(env, Sources(cmd)))
  }

  // An output takes the computed value; a given one keeps its own reusability,
  // and its contents too when the operation returns early.
  function Output(env: map<nat, View>, cmd: Command, k: nat, keep: bool): View
    requires IsOperation(cmd) && k < |Outs(cmd)|
  {
    var h := Outs(cmd)[k].dst;
    View(if keep && h in env then env[h].data else Value(env, cmd, k), Outs(cmd)[k].sig, h in env ==> env[h].reusable)
  }

  function Outputs(env: map<nat, View>, cmd: Command, keep: bool): (vs: seq<View>)
    requires IsOperation(cmd)
    ensures |vs| == |Outs(cmd)| && forall k :: 0 <= k < |vs| ==> vs[k] == Output(env, cmd, k, keep)
  {
    seq(|Outs(cmd)|, k requires 0 <= k < |Outs(cmd)| => Output(env, cmd, k, keep))
  }

  function PutViews(env: map<nat, View>, outs: seq<Target>, vs: seq<View>): map<nat, View>
    requires |outs| == |vs|
    decreases |outs|
  {
    if outs == [] then env else PutViews(env[outs[0].dst := vs[0]], outs[1..], vs[1..])
  }

  function Outcome(env: map<nat, View>, cmd: Command, keep: bool): map<nat, View> {
    match cmd
    case Load(dst, data) => env[dst := View(data, 0, true)]
    case Operate(_, _, outs) => PutViews(env, outs, Outputs(env, cmd, keep))
    case ComputeGradient(_, _, _, _, _, _, _, _, _) => PutViews(env, Outs(cmd), Outputs(env, cmd, keep))
    case Unseal(h) => if h in env then env[h := View(env[h].data, 0, false)] else env
    case Seal(h, sig) => if h in env then env[h := View(env[h].data, sig, false)] else env
    case Write(h, data) => if h in env then env[h := env[h].(data := data)] else env
    case Release(h) => env - {h}
    case DrainCache => env
    case DisableCache => env
    case EnableCache(_) => env
  }

  // What a command means when nothing is remembered.
  function Eval(env: map<nat, View>, cmd: Command): map<nat, View> { Outcome(env, cmd, false) }

  function Run(env: map<nat, View>, cmds: seq<Command>): map<nat, View>
    decreases |cmds|
  {
    if cmds == [] then env else Run(Eval(env, cmds[0]), cmds[1..])
  }

  ghost predicate FitsIn(env: map<nat, View>, dst: nat, data: Content) {
    dst in env ==> |env[dst].data| == |data|
  }

  ghost predicate Denotes(naming: map<nat, Content>, sig: nat, data: Content) {
    sig != 0 ==> sig in naming && naming[sig] == data
  }

  ghost predicate DistinctOuts(outs: seq<Target>) {
    && (forall i, j :: 0 <= i < j < |outs| ==> outs[i].dst != outs[j].dst)
    && (forall i, j :: 0 <= i < j < |outs| ==> outs[i].sig == 0 || outs[i].sig != outs[j].sig)
  }

  // An operation: its outputs differ, have the right shape, are not its sources,
  // and their signatures name what is computed.
  ghost predicate LegalOuts(env: map<nat, View>, cmd: Command, naming: map<nat, Content>)
    requires IsOperation(cmd)
  {
    && DistinctOuts(Outs(cmd))
    && (forall k :: 0 <= k < |Sources(cmd)| ==> Sources(cmd)[k] in env)
    && (forall k :: 0 <= k < |Outs(cmd)| ==>
          && Outs(cmd)[k].dst !in Sources(cmd) && FitsIn(env, Outs(cmd)[k].dst, Value(env, cmd, k))
          && Denotes(naming, Outs(cmd)[k].sig, Value(env, cmd, k)))
  }

  // The gradient's outputs come of its two intermediate matrices.
  ghost predicate LegalGradient(env: map<nat, View>, cmd: Command, naming: map<nat, Content>)
    requires cmd.ComputeGradient?
  {
    && cmd.src in env && cmd.first.sig != cmd.second.sig
    && var a, s := env[cmd.src].data, env[cmd.src].sig;
    && (s == 0 ==> cmd.first.sig == 0 && cmd.second.sig == 0)
    && Value(env, cmd, 0) == cmd.theta(cmd.fx(a), cmd.fy(a)) && Value(env, cmd, 1) == cmd.mag(cmd.fx(a), cmd.fy(a))
    && Denotes(naming, Derived(s, cmd.xsig), cmd.fx(a)) && Denotes(naming, Derived(s, cmd.ysig), cmd.fy(a))
  }

  // Contents change only while there is no signature.
  ghost predicate Legal(env: map<nat, View>, cmd: Command, naming: map<nat, Content>) {
    match cmd
    case Load(dst, _) => dst !in env
    case Operate(_, _, _) => LegalOuts(env, cmd, naming)
    case ComputeGradient(_, _, _, _, _, _, _, _, _) => LegalOuts(env, cmd, naming) && LegalGradient(env, cmd, naming)
    case Unseal(h) => h in env
    case Seal(h, sig) => h in env && env[h].sig == 0 && Denotes(naming, sig, env[h].data)
    case Write(h, data) => h in env && env[h].sig == 0 && FitsIn(env, h, data)
    case Release(h) => h in env
    case DrainCache => true
    case DisableCache => true
    case EnableCache(_) => true
  }

  ghost predicate LegalRun(env: map<nat, View>, cmds: seq<Command>, naming: map<nat, Content>)
    decreases |cmds|
  {
    cmds != [] ==> Legal(env, cmds[0], naming) && LegalRun(Eval(env, cmds[0]), cmds[1..], naming)
  }

  // ---- what the outputs of a command are afterwards ----

  lemma {:induction false} PutViewsAt(env: map<nat, View>, outs: seq<Target>, vs: seq<View>)
    requires |outs| == |vs| && DistinctOuts(outs)
    ensures var r := PutViews(env, outs, vs);
            && (forall k :: 0 <= k < |outs| ==> outs[k].dst in r && r[outs[k].dst] == vs[k])
            && (forall h :: IsOut(outs, h) || (h in r <==> h in env))
            && (forall h :: h in env && !IsOut(outs, h) ==> h in r && r[h] == env[h])
    decreases |outs|
  {
    if outs != [] {
      var e, o, v := env[outs[0].dst := vs[0]], outs[1..], vs[1..];
      assert forall k :: 0 <= k < |o| ==> o[k] == outs[k + 1] && v[k] == vs[k + 1];
      PutViewsAt(e, o, v);
      forall h
        ensures IsOut(outs, h) <==> h == outs[0].dst || IsOut(o, h)
      {
        if IsOut(outs, h) && h != outs[0].dst {
          var k :| 0 <= k < |outs| && outs[k].dst == h;
          assert o[k - 1].dst == h;
        }
        if IsOut(o, h) {
          var k :| 0 <= k < |o| && o[k].dst == h;
          assert outs[k + 1].dst == h;
        }
      }
      assert !IsOut(o, outs[0].dst);
      forall k | 0 <= k < |outs|
        ensures outs[k].dst in PutViews(env, outs, vs) && PutViews(env, outs, vs)[outs[k].dst] == vs[k]
      {
        if k > 0 { assert outs[k] == o[k - 1]; }
      }
    }
  }

  ghost predicate IsOut(outs: seq<Target>, h: nat) { exists k :: 0 <= k < |outs| && outs[k].dst == h }

  // An early return is harmless exactly when the given outputs already held
  // what should have been computed.
  lemma KeptIsEval(env: map<nat, View>, cmd: Command)
    requires IsOperation(cmd) && DistinctOuts(Outs(cmd))
    ensures Outcome(env, cmd, true) == Eval(env, cmd) <==>
              forall k :: 0 <= k < |Outs(cmd)| && Outs(cmd)[k].dst in env ==>
                  env[Outs(cmd)[k].dst].data == Value(env, cmd, k)
  {
    hide Outs, Value;
    var outs, l, r := Outs(cmd), Outputs(env, cmd, true), Outputs(env, cmd, false);
    IsPut(env, cmd, true);
    IsPut(env, cmd, false);
    PutViewsAt(env, outs, l);
    PutViewsAt(env, outs, r);
    if Outcome(env, cmd, true) == Eval(env, cmd) {
      forall k | 0 <= k < |outs| && outs[k].dst in env
        ensures env[outs[k].dst].data == Value(env, cmd, k)
      {
        assert l[k] == PutViews(env, outs, l)[outs[k].dst] == r[k];
      }
    }
    if forall k :: 0 <= k < |outs| && outs[k].dst in env ==> env[outs[k].dst].data == Value(env, cmd, k) {
      assert l == r;
    }
  }

  lemma IsPut(env: map<nat, View>, cmd: Command, keep: bool)
    requires IsOperation(cmd)
    ensures Outcome(env, cmd, keep) == PutViews(env, Outs(cmd), Outputs(env, cmd, keep))
  {
    hide PutViews, Outputs;
  }

  ghost predicate Named(env: map<nat, View>, naming: map<nat, Content>) {
    forall h :: h in env ==> Denotes(naming, env[h].sig, env[h].data)
  }

  lemma EvalNamed(env: map<nat, View>, cmd: Command, naming: map<nat, Content>)
    requires Named(env, naming) && Legal(env, cmd, naming)
    ensures Named(Eval(env, cmd), naming)
  {
    if IsOperation(cmd) {
      OperationNamed(env, cmd, naming);
    } else {
      hide PutViews, Outs;
    }
  }

  lemma OperationNamed(env: map<nat, View>, cmd: Command, naming: map<nat, Content>)
    requires IsOperation(cmd) && Named(env, naming) && LegalOuts(env, cmd, naming)
    ensures Named(Eval(env, cmd), naming)
  {
    hide Outs, Value, PutViews, Sources;
    IsPut(env, cmd, false);
    var outs, vs := Outs(cmd), Outputs(env, cmd, false);
    PutViewsAt(env, outs, vs);
    var r := PutViews(env, outs, vs);
    forall h | h in r
      ensures Denotes(naming, r[h].sig, r[h].data)
    {
      if IsOut(outs, h) {
        var k :| 0 <= k < |outs| && outs[k].dst == h;
        assert r[h] == vs[k];
      } else {
        assert h in env;
      }
    }
  }

  // The matrices in the callers' hands, under the callers' names, are those of
  // the evaluation, whatever their flags.
  ghost predicate Agree(memory: map<nat, Matrix>, live: set<nat>, regs: map<nat, nat>, env: map<nat, View>) {
    && regs.Keys == env.Keys && live == regs.Values
    && (forall g, h :: g in regs && h in regs && g != h ==> regs[g] != regs[h])
    && (forall h :: h in regs ==> regs[h] in memory && ViewOf(memory[regs[h]]) == env[h])
  }

  lemma AgreeSet(memory: map<nat, Matrix>, live: set<nat>, regs: map<nat, nat>, env: map<nat, View>,
                 memory': map<nat, Matrix>, live': set<nat>, dst: nat, o: nat, v: View)
    requires Agree(memory, live, regs, env) && live' == live + {o}
    requires if dst in regs then o == regs[dst] else o !in live
    requires forall p :: p in live && p != o ==> p in memory' && memory'[p] == memory[p]
    requires o in memory' && ViewOf(memory'[o]) == v
    ensures Agree(memory', live', regs[dst := o], env[dst := v])
  {
    hide ViewOf;
    ValuesSet(regs, dst, o);
  }

  lemma ValuesSet(regs: map<nat, nat>, dst: nat, o: nat)
    requires if dst in regs then o == regs[dst] else true
    ensures regs[dst := o].Values == regs.Values + {o}
  {
    var regs' := regs[dst := o];
    assert dst in regs' && regs'[dst] == o;
    forall p | p in regs.Values && p != o
      ensures p in regs'.Values
    {
      var h :| h in regs && regs[h] == p;
      assert h in regs' && regs'[h] == p;
    }
  }

  lemma OpenAgree(memory: map<nat, Matrix>, live: set<nat>, regs: map<nat, nat>, env: map<nat, View>)
    requires Agree(memory, live, regs, env)
    ensures regs.Keys == env.Keys
    ensures forall g, h :: g in regs && h in regs && g != h ==> regs[g] != regs[h]
    ensures forall h :: h in regs ==> regs[h] in live && regs[h] in memory && ViewOf(memory[regs[h]]) == env[h]
  {
  }

  function PutRegs(regs: map<nat, nat>, outs: seq<Target>, os: seq<nat>): map<nat, nat>
    requires |outs| == |os|
    decreases |outs|
  {
    if outs == [] then regs else PutRegs(regs[outs[0].dst := os[0]], outs[1..], os[1..])
  }

  // The outputs: the matrices of given ones, new matrices otherwise.
  ghost predicate Placed(regs: map<nat, nat>, live: set<nat>, outs: seq<Target>, os: seq<nat>) {
    && |outs| == |os| && (forall i, j :: 0 <= i < j < |os| ==> os[i] != os[j])
    && (forall i, j :: 0 <= i < j < |outs| ==> outs[i].dst != outs[j].dst)
    && (forall k :: 0 <= k < |os| ==> if outs[k].dst in regs then os[k] == regs[outs[k].dst] else os[k] !in live)
  }

  // The outputs show vs, and the other matrices are as they were.
  ghost predicate Showing(memory: map<nat, Matrix>, live: set<nat>, memory': map<nat, Matrix>, os: seq<nat>,
                          vs: seq<View>) {
    && |os| == |vs| && (forall k :: 0 <= k < |os| ==> os[k] in memory' && ViewOf(memory'[os[k]]) == vs[k])
    && (forall p :: p in live && p !in os ==> p in memory' && p in memory && memory'[p] == memory[p])
  }

  lemma {:induction false} AgreeOuts(memory: map<nat, Matrix>, live: set<nat>, regs: map<nat, nat>, env: map<nat, View>,
                                     memory': map<nat, Matrix>, live': set<nat>, outs: seq<Target>, os: seq<nat>,
                                         vs: seq<View>)
    requires Agree(memory, live, regs, env) && Placed(regs, live, outs, os) && live' == live + Members(os)
    requires Showing(memory, live, memory', os, vs)
    ensures |outs| == |os| == |vs| && Agree(memory', live', PutRegs(regs, outs, os), PutViews(env, outs, vs))
    decreases |outs|
  {
    hide *;
    SameLength(regs, live, outs, os, memory, memory', vs);
    PutFirst(regs, env, outs, os, vs);
    if outs == [] {
      AgreeNone(memory, live, regs, env, memory', os, vs);
    } else {
      var o, d := os[0], outs[0].dst;
      AgreeFirst(memory, live, regs, env, memory', outs, os, vs);
      AgreeOuts(memory[o := memory'[o]], live + {o}, regs[d := o], env[d := vs[0]], memory', live', outs[1..], os[1..],
                vs[1..]);
    }
  }

  lemma AgreeNone(memory: map<nat, Matrix>, live: set<nat>, regs: map<nat, nat>, env: map<nat, View>,
                  memory': map<nat, Matrix>, os: seq<nat>, vs: seq<View>)
    requires Agree(memory, live, regs, env) && Showing(memory, live, memory', os, vs) && os == []
    ensures live + Members(os) == live && Agree(memory', live, regs, env)
  {
    LiveInMemory(memory, live, regs, env);
    hide Agree, Members, Showing;
    NoMembers();
    NothingShown(memory, live, memory', os, vs);
    AgreeSame(memory, live, regs, env, memory');
  }

  lemma AgreeFirst(memory: map<nat, Matrix>, live: set<nat>, regs: map<nat, nat>, env: map<nat, View>,
                   memory': map<nat, Matrix>, outs: seq<Target>, os: seq<nat>, vs: seq<View>)
    requires |outs| == |os| == |vs| && outs != [] && os[0] in memory'
    requires Agree(memory, live, regs, env) && Placed(regs, live, outs, os) && Showing(memory, live, memory', os, vs)
    ensures var o, d := os[0], outs[0].dst;
            && Agree(memory[o := memory'[o]], live + {o}, regs[d := o], env[d := vs[0]])
            && Placed(regs[d := o], live + {o}, outs[1..], os[1..])
                && live + Members(os) == live + {o} + Members(os[1..])
            && Showing(memory[o := memory'[o]], live + {o}, memory', os[1..], vs[1..])
  {
    LiveInMemory(memory, live, regs, env);
    hide Agree, Placed, Members, Showing, ViewOf, PutRegs, PutViews;
    PlacedRest(memory, live, regs, env, outs, os);
    ShowingRest(memory, live, memory', os, vs);
    AgreeSet(memory, live, regs, env, memory[os[0] := memory'[os[0]]], live + {os[0]}, outs[0].dst, os[0], vs[0]);
  }

  lemma PutFirst(regs: map<nat, nat>, env: map<nat, View>, outs: seq<Target>, os: seq<nat>, vs: seq<View>)
    requires |outs| == |os| == |vs|
    ensures outs == [] ==> PutRegs(regs, outs, os) == regs && PutViews(env, outs, vs) == env
    ensures outs != [] ==>
              && PutRegs(regs, outs, os) == PutRegs(regs[outs[0].dst := os[0]], outs[1..], os[1..])
              && PutViews(env, outs, vs) == PutViews(env[outs[0].dst := vs[0]], outs[1..], vs[1..])
  {
  }

  lemma SameLength(regs: map<nat, nat>, live: set<nat>, outs: seq<Target>, os: seq<nat>, memory: map<nat, Matrix>,
                   memory': map<nat, Matrix>, vs: seq<View>)
    requires Placed(regs, live, outs, os) && Showing(memory, live, memory', os, vs)
    ensures |outs| == |os| == |vs| && forall k :: 0 <= k < |os| ==> os[k] in memory'
  {
  }

  lemma NothingShown(memory: map<nat, Matrix>, live: set<nat>, memory': map<nat, Matrix>, os: seq<nat>, vs: seq<View>)
    requires Showing(memory, live, memory', os, vs) && os == []
    ensures forall p :: p in live ==> p in memory' && p in memory && memory'[p] == memory[p]
  {
  }

  lemma ShowingRest(memory: map<nat, Matrix>, live: set<nat>, memory': map<nat, Matrix>, os: seq<nat>, vs: seq<View>)
    requires Showing(memory, live, memory', os, vs) && os != []
    ensures var o := os[0];
            && |os| == |vs| && o in memory' && ViewOf(memory'[o]) == vs[0]
            && Showing(memory[o := memory'[o]], live + {o}, memory', os[1..], vs[1..])
  {
    var o, t, v := os[0], os[1..], vs[1..];
    assert forall k :: 0 <= k < |t| ==> t[k] == os[k + 1] && v[k] == vs[k + 1];
    assert forall p :: p !in t && p != o ==> p !in os;
  }

  lemma LiveInMemory(memory: map<nat, Matrix>, live: set<nat>, regs: map<nat, nat>, env: map<nat, View>)
    requires Agree(memory, live, regs, env)
    ensures live <= memory.Keys
  {
  }

  lemma PlacedRest(memory: map<nat, Matrix>, live: set<nat>, regs: map<nat, nat>, env: map<nat, View>,
                   outs: seq<Target>, os: seq<nat>)
    requires Agree(memory, live, regs, env) && Placed(regs, live, outs, os) && outs != []
    ensures Placed(regs[outs[0].dst := os[0]], live + {os[0]}, outs[1..], os[1..])
    ensures |os| == |outs| && (if outs[0].dst in regs then os[0] == regs[outs[0].dst] else os[0] !in live)
    ensures Members(os) == {os[0]} + Members(os[1..])
  {
    var o, t := outs[1..], os[1..];
    assert forall k :: 0 <= k < |o| ==> o[k] == outs[k + 1] && t[k] == os[k + 1];
    assert forall h :: h in regs ==> regs[h] in live;
    MembersFirst(os);
  }

  lemma MembersFirst(os: seq<nat>)
    requires os != []
    ensures Members(os) == {os[0]} + Members(os[1..])
  {
    assert os == [os[0]] + os[1..];
  }

  lemma NoMembers()
    ensures Members([]) == {}
  {
  }

  lemma AgreeDrop(memory: map<nat, Matrix>, live: set<nat>, regs: map<nat, nat>, env: map<nat, View>,
                  memory': map<nat, Matrix>, h: nat)
    requires Agree(memory, live, regs, env) && h in regs
    requires forall p :: p in live && p != regs[h] ==> p in memory' && memory'[p] == memory[p]
    ensures Agree(memory', live - {regs[h]}, regs - {h}, env - {h})
  {
    var regs' := regs - {h};
    forall p
      ensures p in live - {regs[h]} <==> p in regs'.Values
    {
      if p in live && p != regs[h] {
        var g :| g in regs && regs[g] == p;
        assert g in regs' && regs'[g] == p;
      }
    }
  }

  lemma AgreeSame(memory: map<nat, Matrix>, live: set<nat>, regs: map<nat, nat>, env: map<nat, View>,
                  memory': map<nat, Matrix>)
    requires Agree(memory, live, regs, env) && forall p :: p in live ==> p in memory' && memory'[p] == memory[p]
    ensures Agree(memory', live, regs, env)
  {
  }

  // ---- the operations that take a flagged output for their result ----

  // What a caller can look at before a command.
  datatype Snap = Snap(memory: map<nat, Matrix>, regs: map<nat, nat>, opt: bool, queue: seq<Record>)

  ghost function SnapOf(al: Allocator, regs: map<nat, nat>): Snap
    reads al, al.cache
  {
    Snap(al.memory, regs, al.opt, al.cache.Spec().queue)
  }

  ghost predicate AgreeAt(z: Snap, env: map<nat, View>) { Agree(z.memory, z.regs.Values, z.regs, env) }

  // An output will carry the flag: a given one does, a new one comes from the cache.
  ghost predicate Marked(z: Snap, h: nat, sig: nat) {
    if h in z.regs then z.regs[h] in z.memory && z.memory[z.regs[h]].garbage else Hit(z.opt, z.queue, sig)
  }

  // Every output will be flagged, at least one is given, and the operation looks.
  ghost predicate Stale(z: Snap, cmd: Command) {
    && IsOperation(cmd) && StyleOf(cmd) != Overwrites
    && (exists k :: 0 <= k < |Outs(cmd)| && Outs(cmd)[k].dst in z.regs)
    && (forall k :: 0 <= k < |Outs(cmd)| ==> Marked(z, Outs(cmd)[k].dst, Outs(cmd)[k].sig))
  }

  // An operation that can leave a flag on an output: it does not clear them, and
  // either looks at more than one, or does not look and asks by signature.
  ghost predicate MayFlag(cmd: Command) {
    && cmd.Operate?
    && ((cmd.style == Checks && |cmd.outs| > 1)
        || (cmd.style == Overwrites && exists k :: 0 <= k < |cmd.outs| && cmd.outs[k].sig != 0))
  }

  // No matrix in hand is flagged.
  ghost predicate Quiet(memory: map<nat, Matrix>, live: set<nat>) {
    forall p :: p in live && p in memory ==> !memory[p].garbage
  }

  lemma QuietNotStale(z: Snap, live: set<nat>, env: map<nat, View>, cmd: Command)
    requires Agree(z.memory, live, z.regs, env) && Quiet(z.memory, live)
    ensures !Stale(z, cmd)
  {
    hide Outs;
  }

  // Any contents a new matrix may happen to have; nothing below depends on them.
  function Blank(n: nat): (c: Content)
    ensures |c| == n
  {
    seq(n, _ => 0)
  }

  function RegOf(regs: map<nat, nat>, h: nat): nat { if h in regs then regs[h] else 0 }

  // The condition, found out before the call.
  method IsStale(al: Allocator, regs: map<nat, nat>, ghost env: map<nat, View>, cmd: Command) returns (b: bool)
    requires al.Valid() && Agree(al.memory, al.live, regs, env)
    ensures b == Stale(SnapOf(al, regs), cmd)
  {
    hide Allocator.Valid, IndexOf, Agree, C.Cache.Spec, Outs;
    OpenAgree(al.memory, al.live, regs, env);
    al.NotNull();
    if !IsOperation(cmd) || StyleOf(cmd) == Overwrites {
      return false;
    }
    var outs := Outs(cmd);
    var given, flagged, i := false, true, 0;
    while i < |outs|
      invariant 0 <= i <= |outs|
      invariant given <==> exists k :: 0 <= k < i && outs[k].dst in regs
      invariant flagged <==> forall k :: 0 <= k < i ==> Marked(SnapOf(al, regs), outs[k].dst, outs[k].sig)
    {
      var f := al.IsFlagged(RegOf(regs, outs[i].dst), outs[i].sig);
      given := given || outs[i].dst in regs;
      flagged := flagged && f;
      i := i + 1;
    }
    return given && flagged;
  }

  // The allocator's view of an operation's outputs.
  function SlotsOf(regs: map<nat, nat>, outs: seq<Target>, args: seq<Content>): (slots: seq<Slot>)
    ensures |slots| == |outs|
    ensures forall k :: 0 <= k < |slots| ==>
              slots[k] == Slot(RegOf(regs, outs[k].dst), outs[k].sig, Blank(|outs[k].f(args)|))
  {
    seq(|outs|, k requires 0 <= k < |outs| => Slot(RegOf(regs, outs[k].dst), outs[k].sig, Blank(|outs[k].f(args)|)))
  }

  function RegsOf(regs: map<nat, nat>, hs: seq<nat>): (os: seq<nat>)
    ensures |os| == |hs| && forall k :: 0 <= k < |os| ==> os[k] == RegOf(regs, hs[k])
  {
    seq(|hs|, k requires 0 <= k < |hs| => RegOf(regs, hs[k]))
  }

  function Functions(outs: seq<Target>): (fs: seq<seq<Content> -> Content>)
    ensures |fs| == |outs| && forall k :: 0 <= k < |fs| ==> fs[k] == outs[k].f
  {
    seq(|outs|, k requires 0 <= k < |outs| => outs[k].f)
  }

  lemma CanPerform(al: Allocator, regs: map<nat, nat>, env: map<nat, View>, cmd: Command)
    requires al.Valid() && Agree(al.memory, al.live, regs, env) && cmd.Operate? && LegalOuts(env, cmd, al.naming)
    ensures var srcs, args := RegsOf(regs, cmd.srcs), Args(env, cmd.srcs);
            && (forall k :: 0 <= k < |srcs| ==> srcs[k] in al.live && srcs[k] in al.memory)
            && al.CanRenew(SlotsOf(regs, cmd.outs, args))
            && al.CanOperate(srcs, Functions(cmd.outs), SlotsOf(regs, cmd.outs, args))
            && al.Contents(srcs) == args
  {
    hide Allocator.Valid, Agree;
    al.NotNull();
    OpenAgree(al.memory, al.live, regs, env);
    var srcs, args := RegsOf(regs, cmd.srcs), Args(env, cmd.srcs);
    var slots := SlotsOf(regs, cmd.outs, args);
    assert forall k :: 0 <= k < |srcs| ==> Sources(cmd)[k] == cmd.srcs[k] && cmd.srcs[k] in regs;
    assert forall k :: 0 <= k < |srcs| ==> srcs[k] in al.live && srcs[k] in al.memory;
    assert al.Contents(srcs) == args;
    forall k | 0 <= k < |slots|
      ensures slots[k].x !in srcs && |slots[k].junk| == |Functions(cmd.outs)[k](args)|
      ensures slots[k].sig != 0 ==> slots[k].sig in al.naming && al.naming[slots[k].sig] == Functions(cmd.outs)[k](args)
      ensures slots[k].x != 0 ==> |al.memory[slots[k].x].data| == |slots[k].junk|
    {
      assert Outs(cmd)[k] == cmd.outs[k] && Value(env, cmd, k) == cmd.outs[k].f(args);
      forall i | 0 <= i < |srcs|
        ensures srcs[i] != slots[k].x
      {
        assert cmd.srcs[i] in cmd.srcs && cmd.srcs[i] != cmd.outs[k].dst;
      }
    }
  }

  method PerformOperate(al: Allocator, regs: map<nat, nat>, ghost env: map<nat, View>, cmd: Command)
      returns (regs': map<nat, nat>)
    requires al.Valid() && Agree(al.memory, al.live, regs, env) && Legal(env, cmd, al.naming) && cmd.Operate?
    modifies al`memory, al`live, al.cache
    ensures al.Valid() && al.cache.age <= old(al.cache.age) + |cmd.outs|
    ensures Agree(al.memory, al.live, regs', Outcome(env, cmd, old(Stale(SnapOf(al, regs), cmd))))
    ensures !MayFlag(cmd) && old(Quiet(al.memory, al.live)) ==> Quiet(al.memory, al.live)
  {
    hide Allocator.Valid, C.Cache.Spec, IndexOf, Agree, Allocator.CanOperate, Allocator.CanRenew, PutViews, PutRegs;
    ghost var memory, live, z := al.memory, al.live, SnapOf(al, regs);
    CanPerform(al, regs, env, cmd);
    OpenAgree(memory, live, regs, env);
    al.NotNull();
    var srcs := RegsOf(regs, cmd.srcs);
    var slots := SlotsOf(regs, cmd.outs, al.Contents(srcs));
    FinalViews(al, regs, env, cmd, slots);
    var os := al.Operate(cmd.style, srcs, Functions(cmd.outs), slots);
    AgreeOuts(memory, live, regs, env, al.memory, al.live, cmd.outs, os, Outputs(env, cmd, Stale(z, cmd)));
    IsPut(env, cmd, Stale(z, cmd));
    regs' := PutRegs(regs, cmd.outs, os);
  }

  // What the allocator leaves in an output is what the program expects there.
  lemma FinalViews(al: Allocator, regs: map<nat, nat>, env: map<nat, View>, cmd: Command, slots: seq<Slot>)
    requires al.Valid() && Agree(al.memory, al.live, regs, env) && cmd.Operate? && LegalOuts(env, cmd, al.naming)
    requires al.CanRenew(slots) && slots == SlotsOf(regs, cmd.outs, Args(env, cmd.srcs))
    ensures DistinctOuts(cmd.outs)
    ensures forall k :: 0 <= k < |slots| ==>
              var m := al.Final(cmd.style, slots, k, cmd.outs[k].f(Args(env, cmd.srcs)));
              && ViewOf(m) == Outputs(env, cmd, Stale(SnapOf(al, regs), cmd))[k]
              && (!MayFlag(cmd) && Quiet(al.memory, al.live) ==> !m.garbage)
  {
    hide Allocator.Valid, C.Cache.Spec, IndexOf, Agree, Allocator.CanRenew;
    OpenAgree(al.memory, al.live, regs, env);
    al.NotNull();
    var z := SnapOf(al, regs);
    assert Outs(cmd) == cmd.outs;
    assert forall k :: 0 <= k < |slots| ==>
             (al.Flag(slots[k].x, slots[k].sig) <==> Marked(z, cmd.outs[k].dst, cmd.outs[k].sig));
    forall k | 0 <= k < |slots|
      ensures var m := al.Final(cmd.style, slots, k, cmd.outs[k].f(Args(env, cmd.srcs)));
              && ViewOf(m) == Output(env, cmd, k, Stale(z, cmd))
              && (!MayFlag(cmd) && Quiet(al.memory, al.live) ==> !m.garbage)
    {
      assert Value(env, cmd, k) == cmd.outs[k].f(Args(env, cmd.srcs));
    }
  }

  method PerformGradient(al: Allocator, regs: map<nat, nat>, ghost env: map<nat, View>, cmd: Command)
      returns (regs': map<nat, nat>)
    requires al.Valid() && Agree(al.memory, al.live, regs, env) && Legal(env, cmd, al.naming) && cmd.ComputeGradient?
    requires al.cache.age + 6 < Pow2(28)
    modifies al`memory, al`live, al`lost, al.cache
    ensures al.Valid() && al.cache.age <= old(al.cache.age) + 6
    ensures Agree(al.memory, al.live, regs', Outcome(env, cmd, old(Stale(SnapOf(al, regs), cmd))))
    ensures old(Quiet(al.memory, al.live)) ==> Quiet(al.memory, al.live)
  {
    hide Allocator.Valid, C.Cache.Spec, Pow2, Agree, IndexOf, Outs, Value, PutViews, PutRegs, Legal, Sources, Stale;
    ghost var memory, live, z := al.memory, al.live, SnapOf(al, regs);
    GradientOuts(env, cmd, al.naming);
    var o, p := RunGradient(al, regs, env, cmd);
    ghost var vs := Outputs(env, cmd, Stale(z, cmd));
    TwoShown(memory, live, regs, al.memory, Outs(cmd), o, p, vs);
    AgreeOuts(memory, live, regs, env, al.memory, al.live, Outs(cmd), [o, p], vs);
    IsPut(env, cmd, Stale(z, cmd));
    regs' := PutRegs(regs, Outs(cmd), [o, p]);
  }

  // The call itself, and what its outputs show.
  method RunGradient(al: Allocator, regs: map<nat, nat>, ghost env: map<nat, View>, cmd: Command)
      returns (o: nat, p: nat)
    requires al.Valid() && Agree(al.memory, al.live, regs, env) && Legal(env, cmd, al.naming) && cmd.ComputeGradient?
    requires al.cache.age + 6 < Pow2(28)
    modifies al`memory, al`live, al`lost, al.cache
    ensures al.Valid() && al.cache.age <= old(al.cache.age) + 6
    ensures o != p && al.live == old(al.live) + {o, p} && o in al.memory && p in al.memory
    ensures if cmd.first.dst in regs then o == regs[cmd.first.dst] else o !in old(al.live)
    ensures if cmd.second.dst in regs then p == regs[cmd.second.dst] else p !in old(al.live)
    ensures var vs := Outputs(env, cmd, old(Stale(SnapOf(al, regs), cmd)));
            |vs| == 2 && ViewOf(al.memory[o]) == vs[0] && ViewOf(al.memory[p]) == vs[1]
    ensures !al.memory[o].garbage && !al.memory[p].garbage
    ensures forall q :: q in old(al.live) && q != o && q != p ==>
              q in old(al.memory) && q in al.memory && al.memory[q] == old(al.memory[q])
  {
    hide Allocator.Valid, C.Cache.Spec, Pow2, Agree, IndexOf, Outs, Value, LegalOuts, Sources, Stale;
    ghost var z := SnapOf(al, regs);
    OpenAgree(al.memory, al.live, regs, env);
    al.NotNull();
    var ComputeGradient(fx, fy, theta, mag, src, first, second, xsig, ysig) := cmd;
    GradientOuts(env, cmd, al.naming);
    GradientStale(z, cmd);
    var a := al.memory[regs[src]].data;
    o, p := al.Gradient(fx, fy, theta, mag, regs[src], RegOf(regs, first.dst), RegOf(regs, second.dst),
                        first.sig, second.sig, xsig, ysig,
                        Blank(|theta(fx(a), fy(a))|), Blank(|mag(fx(a), fy(a))|), Blank(|fx(a)|), Blank(|fy(a)|));
  }

  lemma TwoShown(memory: map<nat, Matrix>, live: set<nat>, regs: map<nat, nat>, memory': map<nat, Matrix>,
                 outs: seq<Target>,
                 o: nat, p: nat, vs: seq<View>)
    requires |outs| == |vs| == 2 && o != p && outs[0].dst != outs[1].dst
    requires if outs[0].dst in regs then o == regs[outs[0].dst] else o !in live
    requires if outs[1].dst in regs then p == regs[outs[1].dst] else p !in live
    requires o in memory' && ViewOf(memory'[o]) == vs[0] && p in memory' && ViewOf(memory'[p]) == vs[1]
    requires forall q :: q in live && q != o && q != p ==> q in memory && q in memory' && memory'[q] == memory[q]
    ensures Placed(regs, live, outs, [o, p]) && Showing(memory, live, memory', [o, p], vs) && Members([o, p]) == {o, p}
  {
  }

  // The two outputs of the gradient, spelled out.
  lemma GradientOuts(env: map<nat, View>, cmd: Command, naming: map<nat, Content>)
    requires cmd.ComputeGradient? && Legal(env, cmd, naming)
    ensures LegalGradient(env, cmd, naming) && Outs(cmd) == [cmd.first, cmd.second]
    ensures cmd.first.dst != cmd.second.dst && cmd.first.dst != cmd.src && cmd.second.dst != cmd.src
    ensures FitsIn(env, cmd.first.dst, Value(env, cmd, 0)) && FitsIn(env, cmd.second.dst, Value(env, cmd, 1))
    ensures Denotes(naming, cmd.first.sig, Value(env, cmd, 0)) && Denotes(naming, cmd.second.sig, Value(env, cmd, 1))
    ensures Derived(env[cmd.src].sig, cmd.first.sig) == cmd.first.sig
    ensures Derived(env[cmd.src].sig, cmd.second.sig) == cmd.second.sig
  {
    hide Value;
    assert Sources(cmd)[0] == cmd.src && Outs(cmd)[0] == cmd.first && Outs(cmd)[1] == cmd.second;
  }

  lemma GradientStale(z: Snap, cmd: Command)
    requires cmd.ComputeGradient?
    ensures Stale(z, cmd) <==>
              && (cmd.first.dst in z.regs || cmd.second.dst in z.regs)
              && Marked(z, cmd.first.dst, cmd.first.sig) && Marked(z, cmd.second.dst, cmd.second.sig)
  {
    hide Marked;
    assert Outs(cmd)[0] == cmd.first && Outs(cmd)[1] == cmd.second;
  }

  // The commands that touch one matrix and not the cache.
  method PerformEdit(al: Allocator, regs: map<nat, nat>, ghost env: map<nat, View>, cmd: Command)
      returns (regs': map<nat, nat>)
    requires al.Valid() && Agree(al.memory, al.live, regs, env) && Legal(env, cmd, al.naming)
    requires cmd.Load? || cmd.Unseal? || cmd.Seal? || cmd.Write?
    modifies al`memory, al`live, al.cache
    ensures al.Valid() && Agree(al.memory, al.live, regs', Eval(env, cmd)) && al.cache.age <= old(al.cache.age) + 1
    ensures old(Quiet(al.memory, al.live)) ==> Quiet(al.memory, al.live)
  {
    hide Allocator.Valid, C.Cache.Spec, Pow2, IndexOf, Agree;
    ghost var memory, live := al.memory, al.live;
    OpenAgree(memory, live, regs, env);
    al.NotNull();
    regs' := regs;
    match cmd
    case Load(dst, data) =>
      var o := al.New(|data|, 0, Blank(|data|));
      al.Set(o, al.memory[o].(data := data));
      AgreeSet(memory, live, regs, env, al.memory, al.live, dst, o, View(data, 0, true));
      regs' := regs[dst := o];
    case Unseal(h) =>
      al.MakeMutable(regs[h]);
      AgreeSet(memory, live, regs, env, al.memory, al.live, h, regs[h], View(env[h].data, 0, false));
      assert regs[h := regs[h]] == regs;
    case Seal(h, sig) =>
      al.MakeImmutable(regs[h], sig);
      AgreeSet(memory, live, regs, env, al.memory, al.live, h, regs[h], View(env[h].data, sig, false));
      assert regs[h := regs[h]] == regs;
    case Write(h, data) =>
      al.Set(regs[h], al.memory[regs[h]].(data := data));
      AgreeSet(memory, live, regs, env, al.memory, al.live, h, regs[h], env[h].(data := data));
      assert regs[h := regs[h]] == regs;
  }

  method PerformRelease(al: Allocator, regs: map<nat, nat>, ghost env: map<nat, View>, cmd: Command)
      returns (regs': map<nat, nat>)
    requires al.Valid() && Agree(al.memory, al.live, regs, env) && Legal(env, cmd, al.naming) && cmd.Release?
    requires al.cache.age + 1 < Pow2(28) && Named(env, al.naming)
    modifies al, al.cache
    ensures al.Valid() && Agree(al.memory, al.live, regs', Eval(env, cmd)) && al.cache.age <= old(al.cache.age) + 1
    ensures al.cache == old(al.cache)
    ensures old(Quiet(al.memory, al.live)) ==> Quiet(al.memory, al.live)
  {
    hide Allocator.Valid, C.Cache.Spec, Pow2, IndexOf, Agree;
    ghost var memory, live := al.memory, al.live;
    OpenAgree(memory, live, regs, env);
    al.NotNull();
    var h := cmd.h;
    al.Free(regs[h]);
    AgreeDrop(memory, live, regs, env, al.memory, h);
    regs' := regs - {h};
  }

  // The commands that work on the cache as a whole leave what callers hold.
  method PerformSwitch(al: Allocator, regs: map<nat, nat>, ghost env: map<nat, View>, cmd: Command)
    requires al.Valid() && Agree(al.memory, al.live, regs, env)
    requires cmd.DrainCache? || cmd.DisableCache? || cmd.EnableCache?
    requires al.cache.age + 1 < Pow2(28)
    modifies al, al.cache
    ensures al.Valid() && Agree(al.memory, al.live, regs, Eval(env, cmd)) && al.cache.age <= old(al.cache.age) + 1
    ensures al.cache == old(al.cache) || fresh(al.cache)
    ensures old(Quiet(al.memory, al.live)) ==> Quiet(al.memory, al.live)
  {
    hide Allocator.Valid, C.Cache.Spec, Pow2, IndexOf, Agree;
    ghost var memory, live := al.memory, al.live;
    OpenAgree(memory, live, regs, env);
    al.NotNull();
    match cmd {
      case DrainCache => al.Drain();
      case DisableCache => al.Disable();
      case EnableCache(size) => al.Enable(size);
    }
    AgreeSame(memory, live, regs, env, al.memory);
  }

  // The cache's clock can advance this much in one command.
  function Cost(cmd: Command): nat { if cmd.Operate? then |cmd.outs| + 1 else 6 }

  function TotalCost(cmds: seq<Command>): nat {
    if cmds == [] then 0 else Cost(cmds[0]) + TotalCost(cmds[1..])
  }

  // One command, whatever the cache holds: direct evaluation, except that a
  // stale operation leaves its given outputs' contents as they are.
  method Perform(al: Allocator, regs: map<nat, nat>, ghost env: map<nat, View>, cmd: Command)
      returns (regs': map<nat, nat>)
    requires al.Valid() && Agree(al.memory, al.live, regs, env) && Named(env, al.naming) && Legal(env, cmd, al.naming)
    requires al.cache.age + Cost(cmd) < Pow2(28)
    modifies al, al.cache
    ensures al.Valid() && al.cache.age <= old(al.cache.age) + Cost(cmd)
    ensures Agree(al.memory, al.live, regs', Outcome(env, cmd, old(Stale(SnapOf(al, regs), cmd))))
    ensures al.cache == old(al.cache) || fresh(al.cache)
    ensures !MayFlag(cmd) && old(Quiet(al.memory, al.live)) ==> Quiet(al.memory, al.live)
  {
    hide Allocator.Valid, C.Cache.Spec, Pow2, IndexOf, Agree, Quiet, Legal, Named, Marked, MayFlag, Outs, StyleOf;
    if !IsOperation(cmd) { assert Eval(env, cmd) == Outcome(env, cmd, Stale(SnapOf(al, regs), cmd)); }
    match cmd
    case Operate(_, _, _) => regs' := PerformOperate(al, regs, env, cmd);
    case ComputeGradient(_, _, _, _, _, _, _, _, _) => regs' := PerformGradient(al, regs, env, cmd);
    case Load(_, _) => regs' := PerformEdit(al, regs, env, cmd);
    case Unseal(_) => regs' := PerformEdit(al, regs, env, cmd);
    case Seal(_, _) => regs' := PerformEdit(al, regs, env, cmd);
    case Write(_, _) => regs' := PerformEdit(al, regs, env, cmd);
    case Release(_) => regs' := PerformRelease(al, regs, env, cmd);
    case DrainCache => PerformSwitch(al, regs, env, cmd); regs' := regs;
    case DisableCache => PerformSwitch(al, regs, env, cmd); regs' := regs;
    case EnableCache(_) => PerformSwitch(al, regs, env, cmd); regs' := regs;
  }

  ghost predicate NoFlags(cmds: seq<Command>) {
    forall k :: 0 <= k < |cmds| ==> !MayFlag(cmds[k])
  }

  // One snapshot before each command up to the first stale one, and what the
  // callers hold at each.
  ghost predicate Traced(trace: seq<Snap>, env: map<nat, View>, cmds: seq<Command>, done: nat) {
    && done <= |cmds| && |trace| == (if done < |cmds| then done + 1 else done)
    && (forall k :: 0 <= k < |trace| ==> (Stale(trace[k], cmds[k]) <==> k == done))
    && (forall k :: 0 <= k < |trace| ==> AgreeAt(trace[k], Run(env, cmds[..k])))
  }

  // What the callers hold in the end.
  ghost function Ending(env: map<nat, View>, cmds: seq<Command>, done: nat): map<nat, View>
    requires done <= |cmds|
  {
    if done == |cmds| then Run(env, cmds) else Outcome(Run(env, cmds[..done]), cmds[done], true)
  }

  // A program, up to and including its first stale operation. Before it the
  // callers hold what direct evaluation gives; the stale operation keeps the
  // contents of its given outputs; without one the whole program agrees. Only
  // operations that leave flags can lead to one.
  method Session(al: Allocator, regs: map<nat, nat>, ghost env: map<nat, View>, cmds: seq<Command>)
      returns (regs': map<nat, nat>, done: nat, ghost trace: seq<Snap>)
    requires al.Valid() && Agree(al.memory, al.live, regs, env)
    requires Named(env, al.naming) && LegalRun(env, cmds, al.naming)
    requires al.cache.age + TotalCost(cmds) < Pow2(28)
    modifies al, al.cache
    ensures al.Valid() && (al.cache == old(al.cache) || fresh(al.cache))
    ensures Traced(trace, env, cmds, done) && done <= |cmds|
    ensures Agree(al.memory, al.live, regs', Ending(env, cmds, done))
    ensures old(Quiet(al.memory, al.live)) && NoFlags(cmds) ==> done == |cmds|
    decreases |cmds|
  {
    hide Allocator.Valid, C.Cache.Spec, Pow2, Outcome, Eval, Legal, Agree, Named, Quiet, Stale, MayFlag, Traced,
      Ending, Cost;
    if cmds == [] {
      NothingTraced(env);
      return regs, 0, [];
    }
    ghost var z := SnapOf(al, regs);
    LiveIsHeld(al.memory, al.live, regs, env);
    var stale := IsStale(al, regs, env, cmds[0]);
    if Quiet(al.memory, al.live) { QuietNotStale(z, al.live, env, cmds[0]); }
    EvalNamed(env, cmds[0], al.naming);
    var mid := Perform(al, regs, env, cmds[0]);
    if stale {
      StaleTraced(z, env, cmds);
      return mid, 0, [z];
    }
    OutcomeIsEval(env, cmds[0]);
    var rest, n;
    ghost var tail;
    rest, n, tail := Session(al, mid, Eval(env, cmds[0]), cmds[1..]);
    TracedMore(z, tail, env, cmds, n);
    regs', done, trace := rest, n + 1, [z] + tail;
  }

  lemma NothingTraced(env: map<nat, View>)
    ensures Traced([], env, [], 0) && Ending(env, [], 0) == env
  {
  }

  lemma StaleTraced(z: Snap, env: map<nat, View>, cmds: seq<Command>)
    requires cmds != [] && Stale(z, cmds[0]) && AgreeAt(z, env)
    ensures Traced([z], env, cmds, 0) && Ending(env, cmds, 0) == Outcome(env, cmds[0], true)
  {
    hide Stale, AgreeAt, Outcome, Eval;
    assert Run(env, cmds[..0]) == env;
  }

  lemma TracedMore(z: Snap, tail: seq<Snap>, env: map<nat, View>, cmds: seq<Command>, n: nat)
    requires cmds != [] && !Stale(z, cmds[0]) && AgreeAt(z, env) && Traced(tail, Eval(env, cmds[0]), cmds[1..], n)
    ensures Traced([z] + tail, env, cmds, n + 1) && n + 1 <= |cmds|
    ensures Ending(env, cmds, n + 1) == Ending(Eval(env, cmds[0]), cmds[1..], n)
  {
    hide Stale, AgreeAt, Outcome, Eval;
    var trace := [z] + tail;
    assert Run(env, cmds[..0]) == env;
    forall k | 0 < k <= |cmds|
      ensures Run(env, cmds[..k]) == Run(Eval(env, cmds[0]), cmds[1..][..k - 1])
    {
      RunFirst(env, cmds, k);
    }
    forall k | 0 < k < |trace|
      ensures trace[k] == tail[k - 1] && cmds[k] == cmds[1..][k - 1]
    {
    }
    assert cmds[..|cmds|] == cmds && cmds[1..][..|cmds| - 1] == cmds[1..];
  }

  lemma LiveIsHeld(memory: map<nat, Matrix>, live: set<nat>, regs: map<nat, nat>, env: map<nat, View>)
    requires Agree(memory, live, regs, env)
    ensures live == regs.Values
  {
  }

  lemma OutcomeIsEval(env: map<nat, View>, cmd: Command)
    ensures Outcome(env, cmd, false) == Eval(env, cmd)
  {
    hide Outcome;
  }

  lemma RunFirst(env: map<nat, View>, cmds: seq<Command>, k: nat)
    requires 0 < k <= |cmds|
    ensures Run(env, cmds[..k]) == Run(Eval(env, cmds[0]), cmds[1..][..k - 1])
  {
    hide Eval;
    assert cmds[..k][0] == cmds[0] && cmds[..k][1..] == cmds[1..][..k - 1];
  }

  // ---- an output returned with its flag still set ----

  lemma FirstDigit(s: nat)
    requires s < 64
    ensures Digit(s, 0) == s
  {
    hide Pow2, And;
    Pow2Values();
    assert Shl(0, 6) == 0;
    OrField(0, s, 6);
  }

  lemma SmallSigns(s: nat, t: nat)
    requires s < 64 && t < 64 && s != t
    ensures !SamePrefix(s, t, 9)
  {
    hide Pow2;
    Pow2Values();
    FirstDigit(s);
    FirstDigit(t);
    assert Digit(s, 0) != Digit(t, 0);
  }

  // A second eigenvector call finds its vectors in the cache but is given a
  // matrix for the values: the vectors come back flagged, and the operation
  // that is given them as output takes them for its own result.
  method ReuseFlagged(al: Allocator, f: Content -> Content, g: Content -> Content, h: Content -> Content, src: nat,
                      l: nat, b: Content)
      returns (r: nat)
    requires al.Valid() && src in al.live && src in al.memory && l in al.live && l in al.memory && l != src
    requires Hit(al.opt, al.cache.Spec().queue, 2) && al.memory[src].sig == 1 && !al.memory[l].garbage
    requires var a := al.memory[src].data;
             && Denotes(al.naming, 2, f(a)) && Denotes(al.naming, 3, g(a)) && |al.memory[l].data| == |g(a)|
                 && |f(a)| == |h(b)|
    modifies al`memory, al`live, al.cache
    ensures al.Valid() && r in al.memory && al.memory[r] == Matrix(f(old(al.memory[src].data)), 0, true, false)
  {
    hide Allocator.Valid, C.Cache.Spec, IndexOf;
    al.NotNull();
    var n, m := |h(b)|, |al.memory[l].data|;
    var v, l2 := al.Eigen(f, g, src, 0, l, 2, 3, Blank(n), Blank(m));
    al.NotNull();
    assert al.memory[v].garbage;
    var t := al.New(|b|, 0, b);
    al.NotNull();
    r := al.Apply(h, t, v, 0, Blank(n));
  }

  // A matrix of the given contents, sealed under signature 1.
  method SignedSource(al: Allocator, a: Content) returns (src: nat)
    requires al.Valid() && Denotes(al.naming, 1, a)
    modifies al`memory, al`live, al.cache
    ensures al.Valid() && src in al.live && src in al.memory && al.lost == old(al.lost)
    ensures al.memory[src].sig == 1 && al.memory[src].data == a
    ensures al.cache.up == old(al.cache.up) && al.cache.age <= old(al.cache.age) + 1
    ensures forall s :: s != 0 ==>
            (Hit(al.opt, al.cache.Spec().queue, s) <==> old(Hit(al.opt, al.cache.Spec().queue, s)))
  {
    hide Allocator.Valid, C.Cache.Spec, IndexOf;
    src := al.New(|a|, 0, a);
    al.MakeImmutable(src, 1);
  }

  // Eigenvectors computed and freed, so that they are cached.
  method EigenOnce(al: Allocator, f: Content -> Content, g: Content -> Content, a: Content) returns (src: nat, l: nat)
    requires al.Valid() && Denotes(al.naming, 1, a) && Denotes(al.naming, 2, f(a)) && Denotes(al.naming, 3, g(a))
    requires al.opt && !Hit(true, al.cache.Spec().queue, 2) && !Hit(true, al.cache.Spec().queue, 3) && al.cache.age == 0
             && (al.header + |f(a)|) % 0x1_0000_0000 <= al.cache.up
    modifies al`memory, al`live, al`lost, al.cache
    ensures al.Valid() && src in al.live && src in al.memory && l in al.live && l in al.memory && l != src
    ensures Hit(al.opt, al.cache.Spec().queue, 2) && al.memory[src].sig == 1 && al.memory[src].data == a
    ensures !al.memory[l].garbage && al.memory[l].data == g(a)
  {
    hide Allocator.Valid, C.Cache.Spec, Pow2, IndexOf;
    Pow2Values();
    var v;
    src, v, l := EigenFirst(al, f, g, a);
    al.NotNull();
    al.Free(v);
  }

  method EigenFirst(al: Allocator, f: Content -> Content, g: Content -> Content, a: Content)
      returns (src: nat, v: nat, l: nat)
    requires al.Valid() && Denotes(al.naming, 1, a) && Denotes(al.naming, 2, f(a)) && Denotes(al.naming, 3, g(a))
    requires al.opt && !Hit(true, al.cache.Spec().queue, 2) && !Hit(true, al.cache.Spec().queue, 3) && al.cache.age == 0
    modifies al`memory, al`live, al.cache
    ensures al.Valid() && {src, v, l} <= al.live && src != v && v != l && l != src
    ensures src in al.memory && al.memory[src].sig == 1 && al.memory[src].data == a
    ensures v in al.memory && al.memory[v] == Matrix(f(a), 2, true, false)
    ensures l in al.memory && al.memory[l] == Matrix(g(a), 3, true, false)
    ensures al.cache.up == old(al.cache.up) && al.cache.age <= 3
  {
    hide Allocator.Valid, C.Cache.Spec, Pow2, IndexOf;
    src := SignedSource(al, a);
    al.NotNull();
    v, l := al.Eigen(f, g, src, 0, 0, 2, 3, Blank(|f(a)|), Blank(|g(a)|));
  }

  // So an operation meant to give h(b) gives f(a).
  method EigenThenReuse(f: Content -> Content, g: Content -> Content, h: Content -> Content, a: Content, b: Content,
                        header: nat)
      returns (al: Allocator, r: nat)
    requires |f(a)| == |h(b)| && f(a) != h(b)
    ensures al.Valid() && r in al.memory && al.memory[r].data == f(a) != h(b)
  {
    hide Allocator.Valid, C.Cache.Spec, Pow2, IndexOf, SamePrefix;
    forall s, t | s in {1, 2, 3} && t in {1, 2, 3} && s != t
      ensures !SamePrefix(s, t, 9)
    {
      SmallSigns(s, t);
    }
    al := new Allocator(header, map[1 := a, 2 := f(a), 3 := g(a)]);
    al.Enable(header + |f(a)|);
    var src, l := EigenOnce(al, f, g, a);
    r := ReuseFlagged(al, f, g, h, src, l, b);
  }

  // DAISY never looks at its output's flag: computed, freed and computed again,
  // its output comes back flagged, and the next operation given it as output
  // takes it for its own result. No eigenvectors are involved.
  method DaisyThenReuse(f: Content -> Content, h: Content -> Content, a: Content, b: Content, header: nat)
      returns (al: Allocator, r: nat)
    requires |f(a)| == |h(b)| && f(a) != h(b)
    ensures al.Valid() && r in al.memory && al.memory[r].data == f(a) != h(b)
  {
    hide Allocator.Valid, C.Cache.Spec, Pow2, SamePrefix, IndexOf;
    al := TwoNames(header, a, f(a));
    al.Enable(header + |f(a)|);
    var src := DaisyOnce(al, f, a);
    var v := Daisy(al, f, src);
    al.NotNull();
    var t := al.New(|b|, 0, b);
    al.NotNull();
    r := al.Apply(h, t, v, 0, Blank(|f(a)|));
  }

  method TwoNames(header: nat, a: Content, c: Content) returns (al: Allocator)
    ensures al.Valid() && fresh(al) && fresh(al.cache) && al.naming == map[1 := a, 2 := c] && al.header == header
  {
    hide SamePrefix;
    forall s, t | s in {1, 2} && t in {1, 2} && s != t
      ensures !SamePrefix(s, t, 9)
    {
      SmallSigns(s, t);
    }
    al := new Allocator(header, map[1 := a, 2 := c]);
  }

  // The result computed and freed, so that it is cached.
  method DaisyOnce(al: Allocator, f: Content -> Content, a: Content) returns (src: nat)
    requires al.Valid() && Denotes(al.naming, 1, a) && Denotes(al.naming, 2, f(a))
    requires al.opt && al.cache.age == 0 && (al.header + |f(a)|) % 0x1_0000_0000 <= al.cache.up
    modifies al`memory, al`live, al`lost, al.cache
    ensures al.Valid() && src in al.live && src in al.memory && al.memory[src].data == a
    ensures Hit(al.opt, al.cache.Spec().queue, 2)
  {
    hide Allocator.Valid, C.Cache.Spec, Pow2, IndexOf;
    Pow2Values();
    src := SignedSource(al, a);
    al.NotNull();
    var v := Daisy(al, f, src);
    al.NotNull();
    al.Free(v);
  }

  // The output is found under signature 2 or is new; its flag tells which.
  method Daisy(al: Allocator, f: Content -> Content, src: nat) returns (o: nat)
    requires al.Valid() && src in al.live && src in al.memory && Denotes(al.naming, 2, f(al.memory[src].data))
    modifies al`memory, al`live, al.cache
    ensures al.Valid() && o !in old(al.live) && o in al.memory && al.live == old(al.live) + {o}
            && al.lost == old(al.lost)
    ensures al.memory[o] == Matrix(f(old(al.memory[src].data)), 2, true, old(Hit(al.opt, al.cache.Spec().queue, 2)))
    ensures forall p :: p in old(al.live) ==>
            p in al.live && p in old(al.memory) && p in al.memory && al.memory[p] == old(al.memory[p])
    ensures al.cache.up == old(al.cache.up) && al.cache.age <= old(al.cache.age) + 1
  {
    hide Allocator.Valid, C.Cache.Spec, IndexOf, Hit;
    al.NotNull();
    var slots := [Slot(0, 2, Blank(|f(al.memory[src].data)|))];
    assert al.Contents([src])[0] == al.memory[src].data;
    var outs := al.Operate(Overwrites, [src], [OfFirst(f)], slots);
    o := outs[0];
  }

  // ---- matrices nobody can reach any more ----

  // A matrix of one byte freed into a cache of size 0: it stays in memory, and
  // nobody holds it or will be given it.
  method OversizedFree() returns (al: Allocator, o: nat)
    ensures al.Valid() && o in al.memory && o in al.lost && o !in al.live
  {
    hide Allocator.Valid, C.Cache.Spec, Pow2, SamePrefix, IndexOf;
    al := OneName();
    al.Enable(0);
    o := al.New(1, 1, [7]);
    al.NotNull();
    Pow2Values();
    al.Free(o);
    al.NotNull();
  }

  method OneName() returns (al: Allocator)
    ensures al.Valid() && fresh(al) && fresh(al.cache) && al.naming == map[1 := [7]] && al.header == 64
    ensures !al.opt && al.live == {} && al.lost == {}
  {
    al := new Allocator(64, map[1 := [7]]);
  }

  // A cache that holds a matrix is started again: the matrix stays in memory.
  method EnabledTwice() returns (al: Allocator, o: nat)
    ensures al.Valid() && o in al.memory && o in al.lost && o !in al.live
  {
    hide Allocator.Valid, C.Cache.Spec, Pow2, SamePrefix, IndexOf;
    al := OneName();
    al.Enable(1000);
    o := al.New(1, 1, [7]);
    al.NotNull();
    Pow2Values();
    al.Free(o);
    al.Enable(1000);
    al.NotNull();
  }
}
