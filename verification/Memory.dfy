/**
 The memoising allocator for matrices: a freed matrix with a signature goes to
 the cache, and an operation asking for that signature gets it back filled.
 */
module Memory {
  import opened Bits
  import opened Words
  import opened Trie
  import opened CacheSpec
  import C = Cache

  // The bytes of a matrix.
  type Content = seq<nat>

  // `reusable` says the matrix may go to the cache, `garbage` that it just came
  // from there.
  datatype Matrix = Matrix(data: Content, sig: nat, reusable: bool, garbage: bool)

  // ---- what the allocator keeps ----

  ghost function Stored(q: seq<Record>): set<nat> { set r | r in q :: r.obj }

  // A cached matrix holds what its signature denotes.
  ghost predicate Kept(r: Record, memory: map<nat, Matrix>, naming: map<nat, Content>) {
    && r.kind == 0 && r.obj in memory && r.sign in naming
    && memory[r.obj].sig == r.sign && memory[r.obj].reusable && memory[r.obj].data == naming[r.sign]
  }

  ghost predicate Single(q: seq<Record>) {
    forall t :: Objects(q)[t] <= 1
  }

  // Every matrix in memory is held by a caller, cached, or lost, and only one
  // of these.
  ghost predicate Good(memory: map<nat, Matrix>, live: set<nat>, lost: set<nat>, q: seq<Record>,
                       naming: map<nat, Content>) {
    && memory.Keys == live + lost + Stored(q)
    && live !! lost && live !! Stored(q) && lost !! Stored(q)
    && (forall o :: o in memory ==> o != 0 && o % 4 == 0)
    && (forall r :: r in q ==> Kept(r, memory, naming))
    && Single(q)
  }

  ghost predicate Plain(q: seq<Record>) {
    forall r :: r in q ==> r.kind == 0 && r.obj != 0
  }

  lemma {:induction false} StoredTokens(q: seq<Record>, o: nat)
    requires Plain(q)
    ensures o in Stored(q) <==> Objects(q)[Token(o, 0)] > 0
  {
    if q != [] {
      assert q == [q[0]] + q[1..];
      assert forall r :: r in q <==> r == q[0] || r in q[1..];
      StoredTokens(q[1..], o);
      assert Stored(q) == {q[0].obj} + Stored(q[1..]);
    }
  }

  lemma GoodPlain(memory: map<nat, Matrix>, live: set<nat>, lost: set<nat>, q: seq<Record>, naming: map<nat, Content>)
    requires Good(memory, live, lost, q, naming)
    ensures Plain(q) && Single(q) && Stored(q) <= memory.Keys && live <= memory.Keys
    ensures forall o :: o in memory ==> o != 0 && o % 4 == 0
  {
    hide Objects;
    assert forall r :: r in q ==> r.obj in Stored(q) && Kept(r, memory, naming);
  }

  // ---- the effect of one cache operation on the stored matrices ----

  lemma PutCodes(st: State, r: Record)
    ensures PutState(st, r).1 == -1 <==> r.size > st.up
    ensures st.freed <= PutState(st, r).0.freed
    ensures PutState(st, r).0.up == st.up && PutState(st, r).0.handed == st.handed
    ensures r.size > st.up ==> PutState(st, r).0 == st
    ensures r.size <= st.up ==>
            PutState(st, r).0.accepted == st.accepted + NonNull(TokenOf(r)) && r in PutState(st, r).0.queue
  {
    hide Total, Objects, Excess;
    if r.size <= st.up {
      var q := PutState(st, r).0.queue;
      assert q[|q| - 1] == r;
    }
  }

  lemma MovesBalance(a: multiset<Token>, q: multiset<Token>, f: multiset<Token>, h: multiset<Token>,
                     q': multiset<Token>, f': multiset<Token>, x: multiset<Token>)
    requires a == q + f + h && a + x == q' + f' + h && f <= f'
    ensures q' + (f' - f) == q + x
  {
    forall t: Token
      ensures (q' + (f' - f))[t] == (q + x)[t]
    {
      assert (q + f + h)[t] + x[t] == (q' + f' + h)[t];
    }
  }

  // A put that fits stores the new matrix; what it pushed out is what it freed.
  lemma PutMoves(st: State, r: Record)
    requires Sane(st) && Plain(st.queue) && Single(st.queue)
    requires r.obj != 0 && r.kind == 0 && r.obj !in Stored(st.queue) && r.size <= st.up
    ensures var st' := PutState(st, r).0; var gone := st'.freed - st.freed;
            && Single(st'.queue)
            && (forall o :: Token(o, 0) in gone ==> o in Stored(st.queue))
            && (forall o :: o in Stored(st'.queue) <==> (o in Stored(st.queue) || o == r.obj) && Token(o, 0) !in gone)
  {
    hide Total, Objects, PutState;
    var st' := PutState(st, r).0;
    var gone := st'.freed - st.freed;
    PutKeepsSane(st, r);
    PutCodes(st, r);
    MovesBalance(st.accepted, Objects(st.queue), st.freed, st.handed, Objects(st'.queue), st'.freed,
                 NonNull(TokenOf(r)));
    forall x | x in st'.queue
      ensures x.kind == 0 && x.obj != 0
    {
      PutMembers(st, r, x);
    }
    StoredTokens(st.queue, r.obj);
    forall t: Token
      ensures Objects(st'.queue)[t] + gone[t] == Objects(st.queue)[t] + (if t == TokenOf(r) then 1 else 0)
      ensures Objects(st'.queue)[t] <= 1
    {
      assert (Objects(st'.queue) + gone)[t] == (Objects(st.queue) + NonNull(TokenOf(r)))[t];
    }
    assert r.obj in Stored(st'.queue);
    StoredTokens(st'.queue, r.obj);
    forall o
      ensures Token(o, 0) in gone ==> o in Stored(st.queue)
      ensures o in Stored(st'.queue) <==> (o in Stored(st.queue) || o == r.obj) && Token(o, 0) !in gone
    {
      StoredTokens(st.queue, o);
      StoredTokens(st'.queue, o);
    }
  }

  lemma {:induction false} ReleasedCount(log: seq<Token>, t: Token)
    requires t.obj != 0
    ensures C.Released(log)[t] == multiset(log)[t]
  {
    if log != [] {
      var n := |log| - 1;
      assert log == log[..n] + [log[n]];
      ReleasedCount(log[..n], t);
    }
  }

  // The calls of the free function made by one operation.
  lemma NewlyFreed(log: seq<Token>, log': seq<Token>, o: nat)
    requires o != 0
    ensures Token(o, 0) in multiset(log') - multiset(log) <==> Token(o, 0) in C.Released(log') - C.Released(log)
  {
    ReleasedCount(log, Token(o, 0));
    ReleasedCount(log', Token(o, 0));
  }

  // ---- what each step does to the bookkeeping ----

  // One record less: its object is stored no more, all others still are.
  lemma OutOne(q: seq<Record>, i: nat)
    requires Plain(q) && Single(q) && i < |q|
    ensures var q' := RemoveAt(q, i);
            && Single(q') && (forall x :: x in q' ==> x in q)
            && (forall o :: o in Stored(q') <==> o in Stored(q) && o != q[i].obj)
  {
    hide Objects;
    var r, q' := q[i], RemoveAt(q, i);
    RemoveParts(q, i);
    forall t: Token
      ensures Objects(q')[t] <= 1 && Objects(q)[t] == Objects(q')[t] + NonNull(TokenOf(r))[t]
    {
      assert Objects(q)[t] <= 1;
    }
    forall o
      ensures o in Stored(q') <==> o in Stored(q) && o != r.obj
    {
      StoredTokens(q, o);
      StoredTokens(q', o);
    }
  }

  lemma OutMoves(st: State, s: nat, memory: map<nat, Matrix>, live: set<nat>, lost: set<nat>,
                 naming: map<nat, Content>, m: Matrix)
    requires Sane(st) && Good(memory, live, lost, st.queue, naming) && IndexOf(st.queue, s) < |st.queue|
    ensures var r := st.queue[IndexOf(st.queue, s)];
            && Kept(r, memory, naming) && r.sign == s && r.obj != 0 && r.obj !in live && r.obj !in lost
            && GetReply(st, s) == Found(r.obj, 0)
            && Good(memory[r.obj := m], live + {r.obj}, lost, OutState(st, s).queue, naming)
  {
    hide Total, Objects, Single, IndexOf;
    var q, i := st.queue, IndexOf(st.queue, s);
    GoodPlain(memory, live, lost, q, naming);
    assert q[i] in q && q[i].obj in Stored(q);
    OutOne(q, i);
  }

  // A caller's matrix gets new contents or a new header.
  lemma LiveUpdate(memory: map<nat, Matrix>, live: set<nat>, lost: set<nat>, q: seq<Record>,
                   naming: map<nat, Content>, o: nat, m: Matrix)
    requires Good(memory, live, lost, q, naming)
    requires o in live || (o !in memory && o != 0 && o % 4 == 0)
    ensures Good(memory[o := m], live + {o}, lost, q, naming)
  {
    hide Objects;
    assert forall r :: r in q ==> r.obj in Stored(q) && Kept(r, memory, naming);
  }

  lemma LiveGone(memory: map<nat, Matrix>, live: set<nat>, lost: set<nat>, q: seq<Record>, naming: map<nat, Content>,
                 o: nat)
    requires Good(memory, live, lost, q, naming) && o in live
    ensures Good(memory - {o}, live - {o}, lost, q, naming)
    ensures Good(memory, live - {o}, lost + {o}, q, naming)
  {
    hide Objects;
    assert forall r :: r in q ==> r.obj in Stored(q) && Kept(r, memory, naming);
  }

  lemma AllGone(st: State, memory: map<nat, Matrix>, live: set<nat>, lost: set<nat>, naming: map<nat, Content>)
    requires Good(memory, live, lost, st.queue, naming)
    ensures forall o :: Token(o, 0) in CleanupState(st).freed - st.freed <==> o in Stored(st.queue)
    ensures Good(memory - Stored(st.queue), live, lost, [], naming)
            && Good(memory, live, lost + Stored(st.queue), [], naming)
  {
    hide Objects, Stored, Kept;
    EmptyParts();
    NothingStored();
    GoodPlain(memory, live, lost, st.queue, naming);
    assert CleanupState(st).freed - st.freed == Objects(st.queue);
    forall o
      ensures Token(o, 0) in CleanupState(st).freed - st.freed <==> o in Stored(st.queue)
    {
      StoredTokens(st.queue, o);
    }
  }

  lemma NothingStored()
    ensures Stored([]) == {}
  {
  }

  // Taking out by signature: the found matrix changes hands, or nothing does.
  lemma OutGood(st: State, s: nat, memory: map<nat, Matrix>, live: set<nat>, lost: set<nat>,
                naming: map<nat, Content>, signs: set<nat>)
    requires Sane(st) && Good(memory, live, lost, st.queue, naming) && C.SignsIn(st.queue, signs)
    ensures Sane(OutState(st, s)) && C.SignsIn(OutState(st, s).queue, signs)
    ensures IndexOf(st.queue, s) == |st.queue| ==> GetReply(st, s) == Nothing && OutState(st, s) == st
    ensures IndexOf(st.queue, s) < |st.queue| ==>
              var o := st.queue[IndexOf(st.queue, s)].obj;
              && GetReply(st, s) == Found(o, 0) && o != 0 && o !in live && o in memory && s in naming
              && memory[o].data == naming[s] && memory[o].sig == s && memory[o].reusable
              && Good(memory[o := memory[o].(garbage := true)], live + {o}, lost, OutState(st, s).queue, naming)
    ensures forall t :: t != s ==>
            (IndexOf(OutState(st, s).queue, t) < |OutState(st, s).queue| <==> IndexOf(st.queue, t) < |st.queue|)
  {
    hide Total, Objects, Good;
    RemoveKeepsSane(st, s);
    var i := IndexOf(st.queue, s);
    if i < |st.queue| {
      GoodPlain(memory, live, lost, st.queue, naming);
      assert st.queue[i].obj in Stored(st.queue);
      OutMoves(st, s, memory, live, lost, naming, memory[st.queue[i].obj].(garbage := true));
    }
    OutKeepsOthers(st, s);
  }

  lemma OutKeepsOthers(st: State, s: nat)
    ensures forall t :: t != s ==>
            (IndexOf(OutState(st, s).queue, t) < |OutState(st, s).queue| <==> IndexOf(st.queue, t) < |st.queue|)
  {
    hide Objects, NonNull;
    var i := IndexOf(st.queue, s);
    forall t | t != s
      ensures IndexOf(OutState(st, s).queue, t) < |OutState(st, s).queue| <==> IndexOf(st.queue, t) < |st.queue|
    {
      if i < |st.queue| {
        IndexSkips(st.queue[..i], [st.queue[i]], st.queue[i + 1..], t);
        assert st.queue == st.queue[..i] + [st.queue[i]] + st.queue[i + 1..];
      }
    }
  }

  lemma PutGood(st: State, r: Record, memory: map<nat, Matrix>, live: set<nat>, lost: set<nat>,
                naming: map<nat, Content>)
    requires Sane(st) && Good(memory, live, lost, st.queue, naming) && r.obj in live && r.size <= st.up
    requires Kept(r, memory, naming)
    ensures var gone := PutState(st, r).0.freed - st.freed;
            && (forall o :: Token(o, 0) in gone ==> o in Stored(st.queue))
            && Good(map o | o in memory && Token(o, 0) !in gone :: memory[o], live - {r.obj}, lost,
                    PutState(st, r).0.queue, naming)
  {
    hide Objects, PutState, Single, Sane;
    GoodPlain(memory, live, lost, st.queue, naming);
    LiveApart(memory, live, lost, st.queue, naming);
    PutMoves(st, r);
    var st' := PutState(st, r).0;
    var gone := st'.freed - st.freed;
    forall x | x in st'.queue
      ensures Kept(x, memory, naming)
    {
      PutMembers(st, r, x);
    }
    GoodAfter(memory, live, lost, st.queue, naming, gone, r.obj, st'.queue);
  }

  // A matrix moves into the cache, and what is freed was there.
  lemma GoodAfter(memory: map<nat, Matrix>, live: set<nat>, lost: set<nat>, q: seq<Record>, naming: map<nat, Content>,
                  gone: multiset<Token>, o: nat, q': seq<Record>)
    requires Good(memory, live, lost, q, naming) && o in live && Single(q')
    requires forall x :: x in q' ==> Kept(x, memory, naming)
    requires forall p :: Token(p, 0) in gone ==> p in Stored(q)
    requires forall p :: p in Stored(q') <==> (p in Stored(q) || p == o) && Token(p, 0) !in gone
    ensures Good(map p | p in memory && Token(p, 0) !in gone :: memory[p], live - {o}, lost, q', naming)
  {
    hide Single;
    var memory' := map p | p in memory && Token(p, 0) !in gone :: memory[p];
    forall x | x in q'
      ensures Kept(x, memory', naming)
    {
      assert x.obj in Stored(q');
    }
  }

  lemma PutFound(st: State, r: Record)
    requires Sane(st) && r.obj != 0
    ensures r.size <= st.up ==> IndexOf(PutState(st, r).0.queue, r.sign) < |PutState(st, r).0.queue|
  {
    hide Total, Objects, PutState;
    if r.size <= st.up { PutThenGet(st, r); }
  }

  lemma FoundMeansHeld(st: State, s: nat, memory: map<nat, Matrix>, live: set<nat>, lost: set<nat>,
                       naming: map<nat, Content>)
    requires Good(memory, live, lost, st.queue, naming)
    ensures GetReply(st, s) == Nothing <==> IndexOf(st.queue, s) == |st.queue|
  {
    hide Objects, Good;
    GoodPlain(memory, live, lost, st.queue, naming);
  }

  lemma PutStored(st: State, r: Record)
    ensures r.size <= st.up ==> r.obj in Stored(PutState(st, r).0.queue)
  {
    hide Total, Objects, PutState;
    PutCodes(st, r);
  }

  // After a put, what the free function was called on has left the memory.
  lemma Swept(st: State, r: Record, log: seq<Token>, log': seq<Token>, memory: map<nat, Matrix>, live: set<nat>,
              lost: set<nat>, naming: map<nat, Content>)
    requires Sane(st) && Good(memory, live, lost, st.queue, naming) && r.obj in live && Kept(r, memory, naming)
    requires C.Released(log) == st.freed && C.Released(log') == PutState(st, r).0.freed
    ensures var gone := multiset(log') - multiset(log);
            var memory' := map p | p in memory && Token(p, 0) !in gone :: memory[p];
            && (forall p :: p in live ==> p in memory' && memory'[p] == memory[p])
            && (r.size <= st.up ==> Good(memory', live - {r.obj}, lost, PutState(st, r).0.queue, naming))
            && (r.size > st.up ==> Good(memory', live - {r.obj}, lost + {r.obj}, PutState(st, r).0.queue, naming))
    ensures Sane(PutState(st, r).0) && (PutState(st, r).1 == -1 <==> r.size > st.up)
  {
    hide PutState, Good, Sane, Objects, C.Released;
    GoodPlain(memory, live, lost, st.queue, naming);
    PutKeepsSane(st, r);
    PutCodes(st, r);
    var gone, spec := multiset(log') - multiset(log), PutState(st, r).0.freed - st.freed;
    forall p | p in memory
      ensures Token(p, 0) in gone <==> Token(p, 0) in spec
    {
      NewlyFreed(log, log', p);
    }
    assert (map p | p in memory && Token(p, 0) !in gone :: memory[p]) ==
        (map p | p in memory && Token(p, 0) !in spec :: memory[p]);
    LiveApart(memory, live, lost, st.queue, naming);
    if r.size <= st.up {
      PutGood(st, r, memory, live, lost, naming);
    } else {
      assert (map p | p in memory && Token(p, 0) !in spec :: memory[p]) == memory;
      LiveGone(memory, live, lost, st.queue, naming, r.obj);
    }
  }

  lemma LiveApart(memory: map<nat, Matrix>, live: set<nat>, lost: set<nat>, q: seq<Record>, naming: map<nat, Content>)
    requires Good(memory, live, lost, q, naming)
    ensures live !! Stored(q)
  {
  }

  lemma Drained(st: State, log: seq<Token>, log': seq<Token>, memory: map<nat, Matrix>, live: set<nat>,
                lost: set<nat>, naming: map<nat, Content>)
    requires Sane(st) && Good(memory, live, lost, st.queue, naming)
    requires C.Released(log) == st.freed && C.Released(log') == CleanupState(st).freed
    ensures var gone := multiset(log') - multiset(log);
            var memory' := map p | p in memory && Token(p, 0) !in gone :: memory[p];
            Good(memory', live, lost, [], naming) && (forall p :: p in live ==> p in memory' && memory'[p] == memory[p])
    ensures Sane(CleanupState(st))
  {
    hide Good, Sane, Objects, C.Released, Stored;
    GoodPlain(memory, live, lost, st.queue, naming);
    CleanupKeepsSane(st);
    AllGone(st, memory, live, lost, naming);
    LiveApart(memory, live, lost, st.queue, naming);
    var gone := multiset(log') - multiset(log);
    forall p | p in memory
      ensures Token(p, 0) in gone <==> p in Stored(st.queue)
    {
      NewlyFreed(log, log', p);
    }
    assert (map p | p in memory && Token(p, 0) !in gone :: memory[p]) == memory - Stored(st.queue);
  }

  lemma EmptyQueue(memory: map<nat, Matrix>, live: set<nat>, lost: set<nat>, q: seq<Record>, naming: map<nat, Content>)
    requires Good(memory, live, lost, q, naming) && q == []
    ensures memory.Keys == live + lost
  {
    hide Objects;
  }

  lemma EmptySane(up: nat)
    ensures Sane(Empty(up))
  {
  }

  // ---- addresses ----

  lemma {:induction false} Bound(s: set<nat>) returns (b: nat)
    ensures forall x: nat :: x in s ==> x <= b
  {
    if s == {} {
      b := 0;
    } else {
      var y :| y in s;
      var c := Bound(s - {y});
      b := if y > c then y else c;
      assert forall x: nat :: x in s ==> x == y || x in s - {y};
    }
  }

  lemma FreshAddress(s: set<nat>)
    ensures exists at: nat :: at !in s && at != 0 && at % 4 == 0
  {
    var b := Bound(s);
    assert (4 * b + 4) !in s && (4 * b + 4) % 4 == 0;
  }

  // An address the heap may give: any that is aligned and not in use.
  method Malloc(memory: map<nat, Matrix>) returns (at: nat)
    ensures at !in memory && at != 0 && at % 4 == 0
  {
    FreshAddress(memory.Keys);
    at :| at !in memory.Keys && at != 0 && at % 4 == 0;
  }

  // ---- the allocator ----

  // An operation finds its result in the cache.
  ghost predicate Hit(opt: bool, q: seq<Record>, sig: nat) {
    opt && sig != 0 && IndexOf(q, sig) < |q|
  }

  lemma NullMisses(opt: bool, q: seq<Record>)
    ensures !Hit(opt, q, 0)
  {
  }

  class Allocator {
    const header: nat
    // What each signature in use denotes.
    ghost const naming: map<nat, Content>
    var opt: bool
    var cache: C.Cache
    var memory: map<nat, Matrix>
    // The matrices callers hold, and those nobody can reach any more.
    ghost var live: set<nat>
    ghost var lost: set<nat>

    ghost predicate Valid()
      reads this, cache
    {
      && cache.Valid() && Sane(cache.Spec())
      && C.Apart(naming.Keys) && 0 !in naming
      && C.SignsIn(cache.Spec().queue, naming.Keys)
      && (!opt ==> cache.Spec().queue == [])
      && Good(memory, live, lost, cache.Spec().queue, naming)
    }

    // A matrix with a signature holds what that denotes.
    ghost predicate Settled(o: nat)
      reads this
    {
      o in live && o in memory
          && (memory[o].sig != 0 ==> memory[o].sig in naming && memory[o].data == naming[memory[o].sig])
    }

    // The matrices callers hold, other than x, are as they were.
    twostate predicate Undisturbed(x: set<nat>)
      reads this
    {
      forall p :: p in old(live) && p !in x ==>
          p in live && p in old(memory) && p in memory && memory[p] == old(memory[p])
    }

    constructor (header: nat, ghost naming: map<nat, Content>)
      requires C.Apart(naming.Keys) && 0 !in naming
      ensures Valid() && fresh(cache) && this.naming == naming && this.header == header
      ensures !opt && live == {} && lost == {} && memory == map[]
    {
      this.header := header;
      this.naming := naming;
      opt := false;
      cache := new C.Cache(0);
      memory, live, lost := map[], {}, {};
    }

    method New(n: nat, sig: nat, junk: Content) returns (o: nat)
      requires Valid() && |junk| == n && (sig != 0 ==> sig in naming)
      modifies this`memory, this`live, cache
      ensures Valid() && o != 0 && o in memory && o !in old(live) && live == old(live) + {o} && lost == old(lost)
      ensures Undisturbed({}) && cache.up == old(cache.up) && cache.age <= old(cache.age) + 1
      ensures var hit := old(Hit(opt, cache.Spec().queue, sig));
              memory[o] == Matrix(if hit then naming[sig] else junk, sig, true, hit)
      ensures forall s :: s != sig ==> (Hit(opt, cache.Spec().queue, s) <==> old(Hit(opt, cache.Spec().queue, s)))
    {
      hide Total, Objects, OutState, GetReply, Good, IndexOf;
      hide C.SignsIn, C.Apart, Sane, C.Cache.Valid;
      ghost var st := cache.Spec();
      GoodPlain(memory, live, lost, st.queue, naming);
      if opt && sig != 0 {
        var result, kind := cache.Out(sig);
        OutGood(st, sig, memory, live, lost, naming, naming.Keys);
        if result != 0 {
          assert kind == 0;
          o := result;
          memory := memory[o := memory[o].(garbage := true)];
          live := live + {o};
          return;
        }
      }
      o := Malloc(memory);
      LiveUpdate(memory, live, lost, cache.Spec().queue, naming, o, Matrix(junk, sig, true, false));
      memory := memory[o := Matrix(junk, sig, true, false)];
      live := live + {o};
    }

    // Writing the header or the contents of a matrix in hand.
    method Set(o: nat, m: Matrix)
      requires Valid() && o in live
      modifies this`memory
      ensures Valid() && Undisturbed({o}) && memory == old(memory)[o := m] && o in old(memory)
    {
      hide Total, Objects, Good, Sane, C.SignsIn, C.Apart;
      GoodPlain(memory, live, lost, cache.Spec().queue, naming);
      LiveUpdate(memory, live, lost, cache.Spec().queue, naming, o, m);
      assert live + {o} == live;
      memory := memory[o := m];
    }

    // The output matrix of an operation: the caller's own, or a new one.
    method Renew(x: nat, n: nat, sig: nat, junk: Content) returns (o: nat)
      requires Valid() && |junk| == n && (sig != 0 ==> sig in naming)
               && (x != 0 ==> x in live && x in memory && |memory[x].data| == n)
      modifies this`memory, this`live, cache
      ensures Valid() && o != 0 && live == old(live) + {o} && lost == old(lost)
              && (if x != 0 then o == x else o !in old(live))
      ensures Undisturbed({x}) && cache.up == old(cache.up) && cache.age <= old(cache.age) + 1
      ensures o in memory && memory[o] == old(Given(x, sig, junk))
      ensures forall s :: s != sig ==> (Hit(opt, cache.Spec().queue, s) <==> old(Hit(opt, cache.Spec().queue, s)))
    {
      hide Total, Objects, Good, Sane, C.SignsIn, C.Apart;
      if x == 0 {
        o := New(n, sig, junk);
      } else {
        Set(x, memory[x].(sig := sig));
        assert live == live + {x};
        o := x;
      }
    }

    // What an operation starts from: the given matrix under its new signature,
    // the remembered result, or an unfilled matrix.
    ghost function Given(x: nat, sig: nat, junk: Content): Matrix
      reads this, cache
      requires (x != 0 ==> x in memory) && (sig != 0 ==> sig in naming)
    {
      if x != 0 then memory[x].(sig := sig)
      else if Hit(opt, cache.Spec().queue, sig) then Matrix(naming[sig], sig, true, true)
      else Matrix(junk, sig, true, false)
    }

    lemma GivenFlag(x: nat, sig: nat, junk: Content)
      requires (x != 0 ==> x in memory) && (sig != 0 ==> sig in naming)
      ensures var m := Given(x, sig, junk);
              && m.garbage == Flag(x, sig) && m.sig == sig && m.reusable == (x == 0 || memory[x].reusable)
              && (x != 0 ==> m.data == memory[x].data) && (x == 0 && Flag(x, sig) ==> sig != 0 && m.data == naming[sig])
    {
      hide IndexOf, C.Cache.Spec;
    }

    ghost predicate Outputs(outs: seq<nat>)
      reads this
    {
      forall o :: o in outs && o != 0 ==> o in live && o in memory
    }

    // All the outputs came from the cache; if so they are taken as they are. An
    // output nobody asked for is null and counts as found.
    method ReturnIfCached(outs: seq<nat>) returns (hit: bool)
      requires Valid() && Outputs(outs)
      modifies this`memory
      ensures Valid() && (hit <==> forall o :: o in outs && o != 0 ==> old(memory[o].garbage))
      ensures hit ==> Revived(old(memory), memory, outs)
      ensures !hit ==> memory == old(memory)
    {
      hide Allocator.Valid;
      hit := forall o :: o in outs && o != 0 ==> memory[o].garbage;
      if hit { Revive(outs); }
    }

    method Revive(outs: seq<nat>)
      requires Valid() && Outputs(outs)
      modifies this`memory
      ensures Valid() && Revived(old(memory), memory, outs)
    {
      hide Allocator.Valid;
      NotNull();
      var i := 0;
      while i < |outs|
        invariant 0 <= i <= |outs| && Valid() && memory.Keys == old(memory).Keys
        invariant Revived(old(memory), memory, outs[..i])
      {
        if outs[i] != 0 { Set(outs[i], memory[outs[i]].(garbage := false)); }
        assert outs[..i + 1] == outs[..i] + [outs[i]];
        i := i + 1;
      }
      assert outs[..i] == outs;
    }

    method Free(o: nat)
      requires Valid() && o in live && o in memory && (memory[o].reusable ==> Settled(o)) && cache.age + 1 < Pow2(28)
      modifies this`memory, this`live, this`lost, cache
      ensures Valid() && live == old(live) - {o} && Undisturbed({o})
      ensures cache.up == old(cache.up) && cache.age <= old(cache.age) + 1
      ensures lost == old(lost) + if old(TooLarge(o)) then {o} else {}
      ensures old(opt && memory[o].reusable && memory[o].sig != 0 && !TooLarge(o)) ==>
                Hit(opt, cache.Spec().queue, old(memory[o].sig)) && o in Stored(cache.Spec().queue)
    {
      hide Total, Objects, Good, Sane, C.SignsIn, C.Apart, Pow2, PutState, C.Released, Stored, Single, Excess,
        AfterEviction, C.Cache.Valid, IndexOf;
      ghost var st := cache.Spec();
      GoodPlain(memory, live, lost, st.queue, naming);
      LiveGone(memory, live, lost, st.queue, naming, o);
      if !opt || !memory[o].reusable || memory[o].sig == 0 {
        memory := memory - {o};
        live := live - {o};
      } else {
        PutAway(o);
      }
    }

    // Into the cache under its signature, unless it is too large.
    method PutAway(o: nat)
      requires Valid() && Settled(o) && opt && memory[o].reusable && memory[o].sig != 0 && cache.age + 1 < Pow2(28)
      modifies this`memory, this`live, this`lost, cache
      ensures Valid() && live == old(live) - {o} && Undisturbed({o})
      ensures cache.up == old(cache.up) && cache.age <= old(cache.age) + 1
      ensures lost == old(lost) + if old(TooLarge(o)) then {o} else {}
      ensures !old(TooLarge(o)) ==>
                Hit(opt, cache.Spec().queue, old(memory[o].sig)) && o in Stored(cache.Spec().queue)
    {
      hide Total, Objects, Good, Sane, C.SignsIn, C.Apart, Pow2, PutState, C.Released, Stored, Single, Excess,
        AfterEviction, C.Cache.Valid, IndexOf;
      ghost var st := cache.Spec();
      GoodPlain(memory, live, lost, st.queue, naming);
      Pow2Values();
      ghost var log := cache.freed;
      var before := multiset(cache.freed);
      var rec := Record(memory[o].sig, o, 0, (header + |memory[o].data|) % 0x1_0000_0000);
      C.ApartNoClash(st, rec, naming.Keys);
      var reply := C.Perform(cache, Put(rec));
      var gone := multiset(cache.freed) - before;
      C.StepSigns(st, Put(rec), naming.Keys);
      PutFound(st, rec);
      PutStored(st, rec);
      Swept(st, rec, log, cache.freed, memory, live, lost, naming);
      memory := map p | p in memory && Token(p, 0) !in gone :: memory[p];
      live := live - {o};
      if reply == Code(-1) { lost := lost + {o}; }
    }

    // From here on the caller may change the contents.
    method MakeMutable(o: nat)
      requires Valid() && o in live && o in memory
      modifies this`memory
      ensures Valid() && Undisturbed({o}) && o in memory
      ensures memory[o] == old(memory[o]).(sig := 0, reusable := false)
    {
      Set(o, memory[o].(sig := 0, reusable := false));
    }

    // The signature is computed from the contents.
    method MakeImmutable(o: nat, sig: nat)
      requires Valid() && o in live && o in memory && memory[o].sig == 0
      modifies this`memory
      ensures Valid() && Undisturbed({o}) && o in memory
      ensures memory[o] == old(memory[o]).(sig := sig, reusable := false)
    {
      Set(o, memory[o].(sig := sig, reusable := false));
    }

    // Frees everything cached.
    method Drain()
      requires Valid()
      modifies this`memory, cache
      ensures Valid() && Undisturbed({}) && cache.Spec().queue == [] && cache.up == old(cache.up)
              && cache.age <= old(cache.age)
      ensures memory.Keys == live + lost
    {
      hide Total, Objects, Good, Sane, C.Apart, C.Released, Stored, Single;
      if cache.rnum > 0 {
        ghost var st, log := cache.Spec(), cache.freed;
        var before := multiset(cache.freed);
        cache.Cleanup();
        var gone := multiset(cache.freed) - before;
        Drained(st, log, cache.freed, memory, live, lost, naming);
        memory := map p | p in memory && Token(p, 0) !in gone :: memory[p];
      }
      EmptyQueue(memory, live, lost, cache.Spec().queue, naming);
    }

    method Disable()
      requires Valid()
      modifies this`memory, this`opt, cache
      ensures Valid() && Undisturbed({}) && !opt && memory.Keys == live + lost && cache.age <= old(cache.age)
    {
      Drain();
      opt := false;
    }

    // Starting a cache forgets the matrices of one already running: they are
    // lost exactly when there are any.
    method Enable(size: nat)
      requires Valid()
      modifies this`opt, this`cache, this`lost
      ensures Valid() && fresh(cache) && opt && Undisturbed({}) && cache.up == size && cache.age == 0
              && cache.Spec().queue == []
      ensures lost == old(lost) + Stored(old(cache.Spec().queue))
    {
      hide Total, Objects, Good, Sane, C.Apart, Stored, Single;
      AllGone(cache.Spec(), memory, live, lost, naming);
      GoodPlain(memory, live, lost, cache.Spec().queue, naming);
      lost := lost + Stored(cache.Spec().queue);
      opt := true;
      cache := new C.Cache(size);
      EmptySane(size);
    }

    lemma NotNull()
      requires Valid()
      ensures 0 !in live && 0 !in memory && live <= memory.Keys && lost <= memory.Keys && live !! lost
    {
      hide Objects, C.Cache.Valid, Sane;
    }

    // What the renewal of several outputs asks: given ones are held and have the
    // right shape, none is given twice, and signatures in use differ.
    ghost predicate CanRenew(slots: seq<Slot>)
      reads this
    {
      && (forall k :: 0 <= k < |slots| && slots[k].sig != 0 ==> slots[k].sig in naming)
      && (forall k :: 0 <= k < |slots| && slots[k].x != 0 ==>
            slots[k].x in live && slots[k].x in memory && |memory[slots[k].x].data| == |slots[k].junk|)
      && (forall i, j :: 0 <= i < j < |slots| ==> slots[i].x == 0 || slots[i].x != slots[j].x)
      && (forall i, j :: 0 <= i < j < |slots| ==> slots[i].sig == 0 || slots[i].sig != slots[j].sig)
    }

    ghost function Givens(slots: seq<Slot>): (ms: seq<Matrix>)
      reads this, cache
      requires CanRenew(slots)
      ensures |ms| == |slots|
      ensures forall k :: 0 <= k < |slots| ==> ms[k] == Given(slots[k].x, slots[k].sig, slots[k].junk)
    {
      seq(|slots|, k requires 0 <= k < |slots| && CanRenew(slots) reads this, cache =>
        Given(slots[k].x, slots[k].sig, slots[k].junk))
    }

    // The outputs of an operation, one after the other.
    method RenewAll(slots: seq<Slot>) returns (outs: seq<nat>)
      requires Valid() && CanRenew(slots)
      modifies this`memory, this`live, cache
      ensures Valid() && live == old(live) + Members(outs) && lost == old(lost)
      ensures Renewed(slots, old(Givens(slots)), old(live), outs, memory)
      ensures Undisturbed(Members(outs)) && cache.up == old(cache.up) && cache.age <= old(cache.age) + |slots|
      decreases |slots|
    {
      hide Allocator.Valid, C.Cache.Spec, IndexOf, Given, CanRenew, Renewed;
      NotNull();
      if slots == [] {
        NothingRenewed(slots, old(Givens(slots)), old(live), memory);
        return [];
      }
      var o := RenewFirst(slots);
      ghost var mid, held := memory, live;
      NotNull();
      var tail := RenewAll(slots[1..]);
      outs := [o] + tail;
      NotNull();
      RenewedMore(slots, old(Givens(slots)), old(live), o, tail, mid, memory);
      assert Members(outs) == {o} + Members(tail);
    }

    // The first output; the others find what they would have found before.
    method RenewFirst(slots: seq<Slot>) returns (o: nat)
      requires Valid() && CanRenew(slots) && slots != []
      modifies this`memory, this`live, cache
      ensures Valid() && live == old(live) + {o} && lost == old(lost) && o != 0 && o in memory
      ensures if slots[0].x != 0 then o == slots[0].x else o !in old(live)
      ensures memory[o] == old(Givens(slots)[0]) && Undisturbed({o})
      ensures forall k :: 0 < k < |slots| && slots[k].x != 0 ==> slots[k].x != o && slots[k].x in old(live)
      ensures CanRenew(slots[1..]) && Givens(slots[1..]) == old(Givens(slots))[1..]
      ensures cache.up == old(cache.up) && cache.age <= old(cache.age) + 1
    {
      hide Allocator.Valid, C.Cache.Spec, IndexOf, Hit;
      NotNull();
      NullMisses(opt, cache.Spec().queue);
      o := Renew(slots[0].x, |slots[0].junk|, slots[0].sig, slots[0].junk);
      NotNull();
      NullMisses(opt, cache.Spec().queue);
      ghost var rest := slots[1..];
      assert forall k :: 0 <= k < |rest| ==> rest[k] == slots[k + 1];
    }

    // The flag every output will carry after its renewal.
    ghost predicate AllFlagged(slots: seq<Slot>)
      reads this, cache
      requires CanRenew(slots)
    {
      forall k :: 0 <= k < |slots| ==> Flag(slots[k].x, slots[k].sig)
    }

    // What an output is when the operation is over.
    ghost function Final(style: Style, slots: seq<Slot>, k: nat, value: Content): Matrix
      reads this, cache
      requires CanRenew(slots) && k < |slots|
    {
      var x, early := slots[k].x, style != Overwrites && AllFlagged(slots);
      Matrix(if early && x != 0 then memory[x].data else value, slots[k].sig, x == 0 || memory[x].reusable,
             Flag(x, slots[k].sig) && !early && style != Revives)
    }

    function Contents(srcs: seq<nat>): seq<Content>
      reads this
      requires forall k :: 0 <= k < |srcs| ==> srcs[k] in memory
    {
      seq(|srcs|, k requires 0 <= k < |srcs| reads this requires srcs[k] in memory => memory[srcs[k]].data)
    }

    // The operands and outputs of an operation: its outputs are not its sources,
    // and their signatures denote what is to be computed.
    ghost predicate CanOperate(srcs: seq<nat>, fs: seq<seq<Content> -> Content>, slots: seq<Slot>)
      reads this
    {
      && |fs| == |slots| && CanRenew(slots)
      && (forall k :: 0 <= k < |srcs| ==> srcs[k] in live && srcs[k] in memory)
      && (forall k :: 0 <= k < |slots| ==> slots[k].x !in srcs && |slots[k].junk| == |fs[k](Contents(srcs))|)
      && (forall k :: 0 <= k < |slots| && slots[k].sig != 0 ==> naming[slots[k].sig] == fs[k](Contents(srcs)))
    }

    // An operation in the form every one of the library has: renew the outputs,
    // perhaps return if all of them are flagged, perhaps clear the flags, compute.
    method Operate(style: Style, srcs: seq<nat>, fs: seq<seq<Content> -> Content>, slots: seq<Slot>)
        returns (outs: seq<nat>)
      requires Valid() && CanOperate(srcs, fs, slots)
      modifies this`memory, this`live, cache
      ensures Valid() && |outs| == |slots| && live == old(live) + Members(outs) && lost == old(lost)
      ensures forall i, j :: 0 <= i < j < |outs| ==> outs[i] != outs[j]
      ensures forall k :: 0 <= k < |outs| ==> outs[k] != 0
      ensures forall k :: 0 <= k < |outs| ==> if slots[k].x != 0 then outs[k] == slots[k].x else outs[k] !in old(live)
      ensures forall k :: 0 <= k < |outs| ==>
                outs[k] in memory && memory[outs[k]] == old(Final(style, slots, k, fs[k](Contents(srcs))))
      ensures Undisturbed(Members(outs)) && cache.up == old(cache.up) && cache.age <= old(cache.age) + |slots|
    {
      hide Allocator.Valid, C.Cache.Spec, CanRenew, Final, AllFlagged, Given, Ended, Members;
      FinalFromGiven(style, srcs, fs, slots);
      outs := Prepare(srcs, fs, slots);
      NotNull();
      InMembers(outs);
      Finish(style, fs, outs, Contents(srcs));
    }

    // The outputs as an operation finds them; its sources stay.
    method Prepare(srcs: seq<nat>, ghost fs: seq<seq<Content> -> Content>, slots: seq<Slot>) returns (outs: seq<nat>)
      requires Valid() && CanOperate(srcs, fs, slots)
      modifies this`memory, this`live, cache
      ensures Valid() && |outs| == |slots| && live == old(live) + Members(outs) && lost == old(lost)
      ensures forall i, j :: 0 <= i < j < |outs| ==> outs[i] != outs[j]
      ensures forall k :: 0 <= k < |outs| ==> if slots[k].x != 0 then outs[k] == slots[k].x else outs[k] !in old(live)
      ensures forall k :: 0 <= k < |outs| ==>
                outs[k] != 0 && outs[k] in live && outs[k] in memory && memory[outs[k]] == old(Givens(slots))[k]
      ensures (forall k :: 0 <= k < |srcs| ==> srcs[k] in memory) && Contents(srcs) == old(Contents(srcs))
      ensures Undisturbed(Members(outs)) && cache.up == old(cache.up) && cache.age <= old(cache.age) + |slots|
    {
      hide Allocator.Valid, C.Cache.Spec, IndexOf, CanRenew, Renewed, Given;
      ghost var givens := Givens(slots);
      outs := RenewAll(slots);
      SourcesKept(old(live), memory, srcs, slots, givens, outs);
      NotNull();
      assert forall p :: p in old(live) && p !in outs ==> p !in Members(outs);
    }

    // What an operation makes of what it starts from.
    lemma FinalFromGiven(style: Style, srcs: seq<nat>, fs: seq<seq<Content> -> Content>, slots: seq<Slot>)
      requires CanOperate(srcs, fs, slots)
      ensures var givens := Givens(slots);
              var early := style != Overwrites && forall k :: 0 <= k < |slots| ==> givens[k].garbage;
              forall k :: 0 <= k < |slots| ==>
                Final(style, slots, k, fs[k](Contents(srcs))) == Ended(style, early, givens[k], fs[k](Contents(srcs)))
    {
      hide C.Cache.Spec, IndexOf;
      var givens := Givens(slots);
      assert forall k :: 0 <= k < |slots| ==> givens[k].garbage == Flag(slots[k].x, slots[k].sig);
      assert AllFlagged(slots) <==> forall k :: 0 <= k < |slots| ==> givens[k].garbage;
    }

    // The rest of an operation, once its outputs are there.
    method Finish(style: Style, fs: seq<seq<Content> -> Content>, outs: seq<nat>, args: seq<Content>)
      requires Valid() && |fs| == |outs|
      requires forall k :: 0 <= k < |outs| ==> outs[k] != 0 && outs[k] in live && outs[k] in memory
      requires forall i, j :: 0 <= i < j < |outs| ==> outs[i] != outs[j]
      modifies this`memory
      ensures Valid() && memory.Keys == old(memory).Keys
      ensures var early := style != Overwrites && forall k :: 0 <= k < |outs| ==> old(memory[outs[k]].garbage);
              forall k :: 0 <= k < |outs| ==>
                memory[outs[k]] == Ended(style, early, old(memory[outs[k]]), fs[k](args))
      ensures forall p :: p in old(memory) && p !in outs && p != 0 ==> memory[p] == old(memory[p])
    {
      hide Allocator.Valid;
      NotNull();
      assert forall k :: 0 <= k < |outs| ==> outs[k] in outs;
      ghost var given := memory;
      if style != Overwrites {
        var hit := ReturnIfCached(outs);
        if hit {
          return;
        }
      }
      if style == Revives { Revive(outs); }
      FillAll(fs, outs, args);
    }

    method FillAll(fs: seq<seq<Content> -> Content>, outs: seq<nat>, args: seq<Content>)
      requires Valid() && |fs| == |outs| && (forall k :: 0 <= k < |outs| ==> outs[k] in live && outs[k] in memory)
      requires forall i, j :: 0 <= i < j < |outs| ==> outs[i] != outs[j]
      modifies this`memory
      ensures Valid() && memory.Keys == old(memory).Keys
      ensures forall k :: 0 <= k < |outs| ==> memory[outs[k]] == old(memory[outs[k]]).(data := fs[k](args))
      ensures forall p :: p in old(memory) && p !in outs ==> memory[p] == old(memory[p])
    {
      hide Allocator.Valid;
      NotNull();
      var i := 0;
      while i < |outs|
        invariant 0 <= i <= |outs| && Valid() && memory.Keys == old(memory).Keys
        invariant forall k :: 0 <= k < i ==> memory[outs[k]] == old(memory[outs[k]]).(data := fs[k](args))
        invariant forall k :: i <= k < |outs| ==> memory[outs[k]] == old(memory[outs[k]])
        invariant forall p :: p in old(memory) && p !in outs ==> memory[p] == old(memory[p])
      {
        Set(outs[i], memory[outs[i]].(data := fs[i](args)));
        i := i + 1;
      }
    }

    // A memoised operation with one output: `f` of the contents of `src`.
    // A given output matrix whose flag is still set is taken for the result.
    method Apply(f: Content -> Content, src: nat, x: nat, sig: nat, junk: Content) returns (o: nat)
      requires Valid() && src in live && src in memory && |junk| == |f(memory[src].data)|
      requires x != 0 ==> x in live && x in memory && x != src && |memory[x].data| == |junk|
      requires Names(src, sig, f(memory[src].data))
      modifies this`memory, this`live, cache
      ensures Valid() && o != 0 && o in memory && live == old(live) + {o} && lost == old(lost)
      ensures (if x != 0 then o == x else o !in old(live)) && Undisturbed({x}) && cache.up == old(cache.up)
              && cache.age <= old(cache.age) + 1
      ensures memory[o] ==
              Matrix(if x != 0 && old(memory[x].garbage) then old(memory[x].data) else f(old(memory[src].data)),
                                  Derived(old(memory[src].sig), sig), x == 0 || old(memory[x].reusable), false)
    {
      hide Allocator.Valid, C.Cache.Spec, IndexOf, Hit;
      NotNull();
      var fs, slots := [OfFirst(f)], [Slot(x, Derived(memory[src].sig, sig), junk)];
      assert Contents([src])[0] == memory[src].data;
      var outs := Operate(Checks, [src], fs, slots);
      o := outs[0];
    }

    // The derived signature, if any, denotes the value to be computed.
    ghost predicate Names(src: nat, sig: nat, value: Content)
      reads this
      requires src in memory
    {
      var s := Derived(memory[src].sig, sig);
      s != 0 ==> s in naming && naming[s] == value
    }

    method RenewBoth(x: nat, y: nat, s: nat, t: nat, junk: Content, junk2: Content) returns (o: nat, p: nat)
      requires Valid() && CanRenew([Slot(x, s, junk), Slot(y, t, junk2)])
      modifies this`memory, this`live, cache
      ensures Valid() && o != 0 && p != 0 && o != p && live == old(live) + {o, p} && lost == old(lost)
      ensures (if x != 0 then o == x else o !in old(live)) && (if y != 0 then p == y else p !in old(live))
      ensures Undisturbed({x, y}) && cache.up == old(cache.up) && cache.age <= old(cache.age) + 2
      ensures o in memory && p in memory && (s != 0 ==> s in naming) && (t != 0 ==> t in naming)
      ensures (x != 0 ==> x in old(memory)) && (y != 0 ==> y in old(memory))
      ensures memory[o] == old(Given(x, s, junk)) && memory[p] == old(Given(y, t, junk2))
    {
      hide Allocator.Valid, C.Cache.Spec, IndexOf, Given;
      NotNull();
      var slots := [Slot(x, s, junk), Slot(y, t, junk2)];
      assert slots[0] == Slot(x, s, junk) && slots[1] == Slot(y, t, junk2);
      var outs := RenewAll(slots);
      o, p := outs[0], outs[1];
      assert Members(outs) == {o, p};
    }

    // Two outputs, as the eigenvector operation computes them: it does not clear
    // the flag of an output that was cached when the other was not.
    method Eigen(f: Content -> Content, g: Content -> Content, src: nat, x: nat, y: nat, fsig: nat, gsig: nat,
                 junk: Content, junk2: Content)
        returns (o: nat, p: nat)
      requires Valid() && src in live && src in memory && |junk| == |f(memory[src].data)|
               && |junk2| == |g(memory[src].data)|
      requires x != 0 ==> x in live && x in memory && x != src && |memory[x].data| == |junk|
      requires y != 0 ==> y in live && y in memory && y != src && y != x && |memory[y].data| == |junk2|
      requires Names(src, fsig, f(memory[src].data)) && Names(src, gsig, g(memory[src].data)) && fsig != gsig
      modifies this`memory, this`live, cache
      ensures Valid() && o != p && o in memory && p in memory && live == old(live) + {o, p} && lost == old(lost)
      ensures (if x != 0 then o == x else o !in old(live)) && (if y != 0 then p == y else p !in old(live))
              && Undisturbed({x, y})
      ensures cache.up == old(cache.up) && cache.age <= old(cache.age) + 2
      ensures var c, d := old(Flag(x, Derived(memory[src].sig, fsig))), old(Flag(y, Derived(memory[src].sig, gsig)));
              && memory[o] == Matrix(if x != 0 && c && d then old(memory[x].data) else f(old(memory[src].data)),
                                     old(Derived(memory[src].sig, fsig)), x == 0 || old(memory[x].reusable), c && !d)
              && memory[p] == Matrix(if y != 0 && c && d then old(memory[y].data) else g(old(memory[src].data)),
                                     old(Derived(memory[src].sig, gsig)), y == 0 || old(memory[y].reusable), d && !c)
    {
      hide Allocator.Valid, C.Cache.Spec, IndexOf, Hit, Final, AllFlagged, Flag, CanOperate, CanRenew, Names, Derived,
        Members, Allocator.Contents, OfFirst;
      var sig := memory[src].sig;
      var fs, slots := [OfFirst(f), OfFirst(g)],
          [Slot(x, Derived(sig, fsig), junk), Slot(y, Derived(sig, gsig), junk2)];
      PairOperable(f, g, src, x, y, fsig, gsig, junk, junk2);
      PairFinal(slots, f(memory[src].data), g(memory[src].data));
      var outs := Operate(Checks, [src], fs, slots);
      o, p := outs[0], outs[1];
      TwoMembers(outs);
    }

    lemma PairOperable(f: Content -> Content, g: Content -> Content, src: nat, x: nat, y: nat, fsig: nat, gsig: nat,
                       junk: Content, junk2: Content)
      requires Valid() && src in live && src in memory && |junk| == |f(memory[src].data)|
               && |junk2| == |g(memory[src].data)|
      requires x != 0 ==> x in live && x in memory && x != src && |memory[x].data| == |junk|
      requires y != 0 ==> y in live && y in memory && y != src && y != x && |memory[y].data| == |junk2|
      requires Names(src, fsig, f(memory[src].data)) && Names(src, gsig, g(memory[src].data)) && fsig != gsig
      ensures var slots :=
              [Slot(x, Derived(memory[src].sig, fsig), junk), Slot(y, Derived(memory[src].sig, gsig), junk2)];
              && CanOperate([src], [OfFirst(f), OfFirst(g)], slots) && CanRenew(slots)
              && OfFirst(f)(Contents([src])) == f(memory[src].data)
                  && OfFirst(g)(Contents([src])) == g(memory[src].data)
    {
      hide Allocator.Valid;
      NotNull();
      assert Contents([src])[0] == memory[src].data;
    }

    lemma PairFinal(slots: seq<Slot>, v: Content, w: Content)
      requires CanRenew(slots) && |slots| == 2
      ensures var c, d := Flag(slots[0].x, slots[0].sig), Flag(slots[1].x, slots[1].sig);
              var x, y := slots[0].x, slots[1].x;
              && Final(Checks, slots, 0, v) == Matrix(if x != 0 && c && d then memory[x].data else v, slots[0].sig,
                                                      x == 0 || memory[x].reusable, c && !d)
              && Final(Checks, slots, 1, w) == Matrix(if y != 0 && c && d then memory[y].data else w, slots[1].sig,
                                                      y == 0 || memory[y].reusable, d && !c)
    {
      hide Flag;
      assert AllFlagged(slots) <==> Flag(slots[0].x, slots[0].sig) && Flag(slots[1].x, slots[1].sig);
    }

    // Two outputs, as the gradient computes them: the flags are cleared before
    // the work starts, and the two intermediate matrices are memoised as well.
    method Gradient(fx: Content -> Content, fy: Content -> Content, theta: (Content, Content) -> Content,
                    mag: (Content, Content) -> Content,
                    src: nat, x: nat, y: nat, tsig: nat, msig: nat, xsig: nat, ysig: nat, junk: Content,
                        junk2: Content, junk3: Content, junk4: Content)
        returns (o: nat, p: nat)
      requires Valid() && src in live && src in memory && cache.age + 6 < Pow2(28)
      requires var a := memory[src].data;
               && |junk| == |theta(fx(a), fy(a))| && |junk2| == |mag(fx(a), fy(a))| && |junk3| == |fx(a)|
                   && |junk4| == |fy(a)|
               && Names(src, tsig, theta(fx(a), fy(a))) && Names(src, msig, mag(fx(a), fy(a)))
                   && Names(src, xsig, fx(a)) && Names(src, ysig, fy(a))
      requires x != 0 ==> x in live && x in memory && x != src && |memory[x].data| == |junk|
      requires y != 0 ==> y in live && y in memory && y != src && y != x && |memory[y].data| == |junk2|
      requires tsig != msig
      modifies this`memory, this`live, this`lost, cache
      ensures Valid() && o != p && o in memory && p in memory && live == old(live) + {o, p} && old(lost) <= lost
      ensures (if x != 0 then o == x else o !in old(live)) && (if y != 0 then p == y else p !in old(live))
              && Undisturbed({x, y})
      ensures cache.up == old(cache.up) && cache.age <= old(cache.age) + 6
      ensures var a, s := old(memory[src].data), old(memory[src].sig);
              |lost| == |old(lost)| + if old(Flag(x, Derived(s, tsig)) && Flag(y, Derived(s, msig))) then 0
                                      else old(Refused(fx(a), Derived(s, xsig)) + Refused(fy(a), Derived(s, ysig)))
      ensures var a, s := old(memory[src].data), old(memory[src].sig);
              var stale := old(Flag(x, Derived(s, tsig)) && Flag(y, Derived(s, msig)));
              && memory[o] == Matrix(if x != 0 && stale then old(memory[x].data) else theta(fx(a), fy(a)),
                                     Derived(s, tsig), x == 0 || old(memory[x].reusable), false)
              && memory[p] == Matrix(if y != 0 && stale then old(memory[y].data) else mag(fx(a), fy(a)),
                                     Derived(s, msig), y == 0 || old(memory[y].reusable), false)
    {
      hide Allocator.Valid, C.Cache.Spec, IndexOf, Pow2, Flag, Refused, CanRenew;
      NotNull();
      var s, t := Derived(memory[src].sig, tsig), Derived(memory[src].sig, msig);
      ghost var a := memory[src].data;
      PairRenewable(src, tsig, msig, theta(fx(a), fy(a)), mag(fx(a), fy(a)), x, y, junk, junk2);
      o, p := GradientOutputs(src, x, y, s, t, junk, junk2, xsig, ysig, fx(a), fy(a));
      NotNull();
      GradientInto(fx, fy, theta, mag, src, o, p, xsig, ysig, junk3, junk4);
    }

    lemma PairRenewable(src: nat, fsig: nat, gsig: nat, v: Content, w: Content, x: nat, y: nat, junk: Content,
                        junk2: Content)
      requires src in live && src in memory && Names(src, fsig, v) && Names(src, gsig, w) && fsig != gsig
      requires x != 0 ==> x in live && x in memory && |memory[x].data| == |junk|
      requires y != 0 ==> y in live && y in memory && y != x && |memory[y].data| == |junk2|
      ensures CanRenew([Slot(x, Derived(memory[src].sig, fsig), junk), Slot(y, Derived(memory[src].sig, gsig), junk2)])
    {
    }

    // The renewed outputs of the gradient; its source, and what the cache refuses,
    // stay as they were.
    method GradientOutputs(src: nat, x: nat, y: nat, s: nat, t: nat, junk: Content, junk2: Content, ghost xsig: nat,
                           ghost ysig: nat, ghost v: Content, ghost w: Content)
        returns (o: nat, p: nat)
      requires Valid() && CanRenew([Slot(x, s, junk), Slot(y, t, junk2)])
      requires src in live && src in memory && src != x && src != y && Names(src, xsig, v) && Names(src, ysig, w)
      modifies this`memory, this`live, cache
      ensures Valid() && o != p && live == old(live) + {o, p} && lost == old(lost) && o in memory && p in memory
      ensures (if x != 0 then o == x else o !in old(live)) && (if y != 0 then p == y else p !in old(live))
      ensures Undisturbed({x, y}) && cache.up == old(cache.up) && cache.age <= old(cache.age) + 2
      ensures (x != 0 ==> x in old(memory)) && (y != 0 ==> y in old(memory))
      ensures var m, n := memory[o], memory[p];
              && m.garbage == old(Flag(x, s)) && n.garbage == old(Flag(y, t)) && m.sig == s && n.sig == t
              && m.reusable == (x == 0 || old(memory[x].reusable)) && n.reusable == (y == 0 || old(memory[y].reusable))
              && (x != 0 ==> m.data == old(memory[x].data)) && (y != 0 ==> n.data == old(memory[y].data))
              && (x == 0 && m.garbage ==> s != 0 && s in naming && m.data == naming[s])
              && (y == 0 && n.garbage ==> t != 0 && t in naming && n.data == naming[t])
      ensures src in live && src in memory && memory[src] == old(memory[src]) && src != o && src != p
      ensures Names(src, xsig, v) && Names(src, ysig, w)
      ensures Refused(v, Derived(memory[src].sig, xsig)) + Refused(w, Derived(memory[src].sig, ysig)) ==
              old(Refused(v, Derived(memory[src].sig, xsig)) + Refused(w, Derived(memory[src].sig, ysig)))
    {
      hide Allocator.Valid, C.Cache.Spec, IndexOf, Hit, Given, Flag;
      NotNull();
      var slots := [Slot(x, s, junk), Slot(y, t, junk2)];
      assert slots[0] == Slot(x, s, junk) && slots[1] == Slot(y, t, junk2);
      GivenFlag(x, s, junk);
      GivenFlag(y, t, junk2);
      o, p := RenewBoth(x, y, s, t, junk, junk2);
      NotNull();
    }

    method GradientInto(fx: Content -> Content, fy: Content -> Content, theta: (Content, Content) -> Content,
                        mag: (Content, Content) -> Content,
                        src: nat, o: nat, p: nat, xsig: nat, ysig: nat, junk: Content, junk2: Content)
      requires Valid() && o in live && o in memory && p in live && p in memory && o != p && src in live
               && src in memory && src != o && src != p
      requires |junk| == |fx(memory[src].data)| && |junk2| == |fy(memory[src].data)| && cache.age + 4 < Pow2(28)
      requires Names(src, xsig, fx(memory[src].data)) && Names(src, ysig, fy(memory[src].data))
      modifies this`memory, this`live, this`lost, cache
      ensures Valid() && Undisturbed({o, p}) && o in memory && p in memory && live == old(live) && old(lost) <= lost
      ensures cache.up == old(cache.up) && cache.age <= old(cache.age) + 4
      ensures var a, s := old(memory[src].data), old(memory[src].sig);
              |lost| == |old(lost)| + if old(memory[o].garbage && memory[p].garbage) then 0
                                      else old(Refused(fx(a), Derived(s, xsig)) + Refused(fy(a), Derived(s, ysig)))
      ensures var a, m, n := old(memory[src].data), old(memory[o]), old(memory[p]); var done := m.garbage && n.garbage;
              && memory[o] == m.(garbage := false, data := if done then m.data else theta(fx(a), fy(a)))
              && memory[p] == n.(garbage := false, data := if done then n.data else mag(fx(a), fy(a)))
    {
      hide Allocator.Valid, C.Cache.Spec, IndexOf, Pow2, Hit;
      NotNull();
      assert o in [o, p] && p in [o, p];
      var hit := ReturnIfCached([o, p]);
      if hit { return; }
      ReviveBoth(o, p);
      FillBoth(fx, fy, theta, mag, src, o, p, xsig, ysig, junk, junk2);
    }

    method ReviveBoth(o: nat, p: nat)
      requires Valid() && o in live && o in memory && p in live && p in memory && o != p
      modifies this`memory
      ensures Valid() && Undisturbed({o, p}) && o in memory && p in memory
      ensures memory[o] == old(memory[o]).(garbage := false) && memory[p] == old(memory[p]).(garbage := false)
    {
      hide Allocator.Valid;
      NotNull();
      assert o in [o, p] && p in [o, p];
      Revive([o, p]);
    }

    method FillBoth(fx: Content -> Content, fy: Content -> Content, theta: (Content, Content) -> Content,
                    mag: (Content, Content) -> Content,
                    src: nat, o: nat, p: nat, xsig: nat, ysig: nat, junk: Content, junk2: Content)
      requires Valid() && o in live && o in memory && p in live && p in memory && o != p && src in live
               && src in memory && src != o && src != p
      requires |junk| == |fx(memory[src].data)| && |junk2| == |fy(memory[src].data)| && cache.age + 4 < Pow2(28)
      requires Names(src, xsig, fx(memory[src].data)) && Names(src, ysig, fy(memory[src].data))
      modifies this`memory, this`live, this`lost, cache
      ensures Valid() && Undisturbed({o, p}) && o in memory && p in memory && live == old(live) && old(lost) <= lost
      ensures cache.up == old(cache.up) && cache.age <= old(cache.age) + 4
      ensures var a, s := old(memory[src].data), old(memory[src].sig);
              |lost| == |old(lost)| + old(Refused(fx(a), Derived(s, xsig)) + Refused(fy(a), Derived(s, ysig)))
      ensures var a := old(memory[src].data);
              && memory[o] == old(memory[o]).(data := theta(fx(a), fy(a)))
              && memory[p] == old(memory[p]).(data := mag(fx(a), fy(a)))
    {
      hide Allocator.Valid, C.Cache.Spec, IndexOf, Pow2, Hit;
      NotNull();
      var tx, ty := Intermediates(fx, fy, src, xsig, ysig, junk, junk2);
      NotNull();
      var t, m := memory[tx].data, memory[ty].data;
      SetAndFree(o, p, theta(t, m), mag(t, m), tx, ty);
    }

    method SetAndFree(o: nat, p: nat, v: Content, w: Content, tx: nat, ty: nat)
      requires Valid() && o in live && o in memory && p in live && p in memory && o != p
      requires tx in live && tx in memory && Settled(tx) && ty in live && ty in memory && Settled(ty) && tx != ty
      requires {o, p} !! {tx, ty} && cache.age + 2 < Pow2(28) && memory[tx].reusable && memory[ty].reusable
      modifies this`memory, this`live, this`lost, cache
      ensures Valid() && Undisturbed({o, p, tx, ty}) && live == old(live) - {tx, ty} && old(lost) <= lost
      ensures o in memory && memory[o] == old(memory[o]).(data := v) && p in memory
              && memory[p] == old(memory[p]).(data := w)
      ensures cache.up == old(cache.up) && cache.age <= old(cache.age) + 2
      ensures |lost| == |old(lost)| +
              old(Refused(memory[tx].data, memory[tx].sig) + Refused(memory[ty].data, memory[ty].sig))
    {
      hide Allocator.Valid, C.Cache.Spec, IndexOf, Pow2, Hit;
      SetBoth(o, p, v, w);
      FreeBoth(tx, ty);
    }

    // The two memoised inputs of the final computation.
    method Intermediates(fx: Content -> Content, fy: Content -> Content, src: nat, xsig: nat, ysig: nat,
                         junk: Content, junk2: Content)
        returns (tx: nat, ty: nat)
      requires Valid() && src in live && src in memory && |junk| == |fx(memory[src].data)|
               && |junk2| == |fy(memory[src].data)|
      requires Names(src, xsig, fx(memory[src].data)) && Names(src, ysig, fy(memory[src].data))
      modifies this`memory, this`live, cache
      ensures Valid() && Undisturbed({}) && tx != ty && tx !in old(live) && ty !in old(live)
              && live == old(live) + {tx, ty}
      ensures cache.up == old(cache.up) && cache.age <= old(cache.age) + 2
      ensures tx in memory
              && memory[tx] == Matrix(fx(old(memory[src].data)), Derived(old(memory[src].sig), xsig), true, false)
      ensures ty in memory
              && memory[ty] == Matrix(fy(old(memory[src].data)), Derived(old(memory[src].sig), ysig), true, false)
    {
      hide Allocator.Valid, C.Cache.Spec, IndexOf, Hit;
      NotNull();
      tx := Apply(fx, src, 0, xsig, junk);
      NotNull();
      ty := Apply(fy, src, 0, ysig, junk2);
    }

    method SetBoth(o: nat, p: nat, v: Content, w: Content)
      requires Valid() && o in live && o in memory && p in live && p in memory && o != p
      modifies this`memory
      ensures Valid() && Undisturbed({o, p}) && memory.Keys == old(memory).Keys
      ensures memory == old(memory)[o := old(memory[o]).(data := v)][p := old(memory[p]).(data := w)]
    {
      hide Allocator.Valid;
      NotNull();
      Set(o, memory[o].(data := v));
      Set(p, memory[p].(data := w));
    }

    method FreeBoth(o: nat, p: nat)
      requires Valid() && o in live && o in memory && Settled(o) && p in live && p in memory && Settled(p) && o != p
      requires cache.age + 2 < Pow2(28) && memory[o].reusable && memory[p].reusable
      modifies this`memory, this`live, this`lost, cache
      ensures Valid() && Undisturbed({o, p}) && live == old(live) - {o, p} && old(lost) <= lost
      ensures cache.up == old(cache.up) && cache.age <= old(cache.age) + 2
      ensures |lost| == |old(lost)| +
              old(Refused(memory[o].data, memory[o].sig) + Refused(memory[p].data, memory[p].sig))
    {
      hide Allocator.Valid, C.Cache.Spec, IndexOf, Pow2, Hit;
      NotNull();
      ghost var v := Refused(memory[p].data, memory[p].sig);
      FreeOne(o);
      assert Refused(memory[p].data, memory[p].sig) == v;
      FreeOne(p);
    }

    // A freed matrix adds itself to the lost ones or nothing.
    method FreeOne(o: nat)
      requires Valid() && o in live && o in memory && Settled(o) && memory[o].reusable && cache.age + 1 < Pow2(28)
      modifies this`memory, this`live, this`lost, cache
      ensures Valid() && Undisturbed({o}) && live == old(live) - {o} && old(lost) <= lost
      ensures cache.up == old(cache.up) && cache.age <= old(cache.age) + 1
      ensures |lost| == |old(lost)| + old(Refused(memory[o].data, memory[o].sig))
    {
      hide Allocator.Valid, C.Cache.Spec, IndexOf, Pow2, Hit, Stored;
      NotNull();
      Free(o);
    }

    // The flag an output carries after its renewal.
    ghost predicate Flag(x: nat, sig: nat)
      reads this, cache
      requires x != 0 ==> x in memory
    {
      if x != 0 then memory[x].garbage else Hit(opt, cache.Spec().queue, sig)
    }

    // The same, found out beforehand: a look-up does not disturb the cache.
    method IsFlagged(x: nat, sig: nat) returns (b: bool)
      requires Valid() && (x != 0 ==> x in memory)
      ensures b == Flag(x, sig)
    {
      hide Total, Objects, Sane, C.SignsIn, C.Apart, C.Cache.Valid, IndexOf, C.LookUp, C.Walkable;
      if x != 0 {
        return memory[x].garbage;
      }
      if !opt || sig == 0 {
        return false;
      }
      var result, kind := cache.Get(sig);
      FoundMeansHeld(cache.Spec(), sig, memory, live, lost, naming);
      return result != 0;
    }

    // Whether a freed matrix of these contents and this signature is lost.
    ghost function Refused(data: Content, sig: nat): nat
      reads this, cache
    {
      if opt && sig != 0 && (header + |data|) % 0x1_0000_0000 > cache.up then 1 else 0
    }

    // The put refuses a matrix larger than the whole cache, and nobody frees it.
    ghost predicate TooLarge(o: nat)
      reads this, cache
      requires o in memory
    {
      opt && memory[o].reusable && memory[o].sig != 0 && (header + |memory[o].data|) % 0x1_0000_0000 > cache.up
    }
  }

  // An output asked for: the caller's matrix or null, its signature, and what a
  // new matrix happens to contain.
  datatype Slot = Slot(x: nat, sig: nat, junk: Content)

  // Whether an operation looks at the flags and whether it clears them when it
  // has to compute: DAISY and the network layers do neither.
  datatype Style = Checks | Revives | Overwrites

  function Ended(style: Style, early: bool, m: Matrix, value: Content): Matrix {
    m.(data := if early then m.data else value, garbage := m.garbage && !early && style != Revives)
  }

  // No source is among the outputs.
  lemma SourcesKept(live: set<nat>, memory: map<nat, Matrix>, srcs: seq<nat>, slots: seq<Slot>, givens: seq<Matrix>,
                    outs: seq<nat>)
    requires Renewed(slots, givens, live, outs, memory)
    requires (forall k :: 0 <= k < |srcs| ==> srcs[k] in live) && (forall k :: 0 <= k < |slots| ==> slots[k].x !in srcs)
    ensures forall k :: 0 <= k < |srcs| ==> srcs[k] !in outs
    ensures |outs| == |slots| && forall k :: 0 <= k < |outs| ==> outs[k] in outs && outs[k] != 0 && outs[k] in memory
    ensures forall k :: 0 <= k < |outs| ==> memory[outs[k]] == givens[k]
    ensures forall i, j :: 0 <= i < j < |outs| ==> outs[i] != outs[j]
    ensures forall k :: 0 <= k < |outs| ==> if slots[k].x != 0 then outs[k] == slots[k].x else outs[k] !in live
  {
  }

  // The outputs are given or new, differ, and hold what they start from.
  ghost predicate Renewed(slots: seq<Slot>, givens: seq<Matrix>, live: set<nat>, outs: seq<nat>,
                          memory: map<nat, Matrix>) {
    && |outs| == |slots| == |givens|
    && (forall i, j :: 0 <= i < j < |outs| ==> outs[i] != outs[j])
    && (forall k :: 0 <= k < |outs| ==> outs[k] != 0 && outs[k] in memory && memory[outs[k]] == givens[k])
    && (forall k :: 0 <= k < |outs| ==> if slots[k].x != 0 then outs[k] == slots[k].x else outs[k] !in live)
  }

  lemma NothingRenewed(slots: seq<Slot>, givens: seq<Matrix>, live: set<nat>, memory: map<nat, Matrix>)
    requires slots == [] && givens == []
    ensures Renewed(slots, givens, live, [], memory)
  {
  }

  lemma RenewedMore(slots: seq<Slot>, givens: seq<Matrix>, live: set<nat>, o: nat, tail: seq<nat>,
                    mid: map<nat, Matrix>, memory: map<nat, Matrix>)
    requires |slots| == |givens| > 0 && Renewed(slots[1..], givens[1..], live + {o}, tail, memory)
    requires o != 0 && o in mid && mid[o] == givens[0] && (if slots[0].x != 0 then o == slots[0].x else o !in live)
    requires forall k :: 0 < k < |slots| && slots[k].x != 0 ==> slots[k].x != o && slots[k].x in live
    requires o !in tail ==> o in memory && memory[o] == mid[o]
    ensures o !in tail && Renewed(slots, givens, live, [o] + tail, memory)
  {
    var outs := [o] + tail;
    forall k | 0 < k < |outs|
      ensures outs[k] == tail[k - 1] && slots[k] == slots[1..][k - 1] && givens[k] == givens[1..][k - 1] && outs[k] != o
    {
    }
  }

  ghost function Members(outs: seq<nat>): set<nat> { set o | o in outs }

  lemma TwoMembers(outs: seq<nat>)
    requires |outs| == 2
    ensures Members(outs) == {outs[0], outs[1]}
  {
  }

  lemma InMembers(outs: seq<nat>)
    ensures forall p :: p in outs <==> p in Members(outs)
  {
  }

  // An operation on one source.
  function OfFirst(f: Content -> Content): seq<Content> -> Content {
    c => if |c| > 0 then f(c[0]) else []
  }

  // An unsigned source gives unsigned results.
  function Derived(source: nat, sig: nat): nat { if source != 0 then sig else 0 }

  // The flags of `outs` are cleared and nothing else changes.
  ghost predicate Revived(was: map<nat, Matrix>, now: map<nat, Matrix>, outs: seq<nat>) {
    was.Keys == now.Keys && forall o :: o in was && o != 0 ==>
        now[o] == if o in outs then was[o].(garbage := false) else was[o]
  }
}
