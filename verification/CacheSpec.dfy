/**
 What the cache promises, with no trie in it: a list of records in the order of
 their last put, and the fate of every object the cache ever accepted.
 */
module CacheSpec {
  import opened Trie

  // An object together with the type that selects its free function.
  datatype Token = Token(obj: nat, kind: nat)

  // `freed` and `handed` count the objects passed to a free function and the
  // objects given back by `out`. A null pointer is no object: it is never
  // handed back, and an entry that holds one may vanish without a free.
  datatype State = State(queue: seq<Record>, up: nat, accepted: multiset<Token>, freed: multiset<Token>,
                         handed: multiset<Token>)

  datatype Op =
    | Get(sign: nat)
    | Put(rec: Record)
    | Out(sign: nat)
    | Delete(sign: nat)
    | Cleanup

  datatype Reply = Code(code: int) | Found(obj: nat, kind: nat) | Nothing

  function TokenOf(r: Record): Token { Token(r.obj, r.kind) }

  function Total(q: seq<Record>): nat {
    if q == [] then 0 else q[0].size + Total(q[1..])
  }

  function IndexOf(q: seq<Record>, s: nat): (i: nat)
    ensures i <= |q|
    ensures i < |q| ==> q[i].sign == s
    ensures forall j :: 0 <= j < i ==> q[j].sign != s
  {
    if q == [] || q[0].sign == s then 0 else 1 + IndexOf(q[1..], s)
  }

  function RemoveAt<T>(q: seq<T>, i: nat): seq<T>
    requires i < |q|
  {
    q[..i] + q[i + 1..]
  }

  // How many of the oldest records go before the rest fits.
  function Excess(q: seq<Record>, limit: nat): (n: nat)
    ensures n <= |q|
  {
    if Total(q) <= limit then 0 else 1 + Excess(q[1..], limit)
  }

  // The objects of some records, null pointers left out.
  function Objects(q: seq<Record>): multiset<Token> {
    if q == [] then multiset{}
    else NonNull(TokenOf(q[0])) + Objects(q[1..])
  }

  function NonNull(t: Token): multiset<Token> {
    if t.obj != 0 then multiset{t} else multiset{}
  }

  function Evicted(q: seq<Record>, up: nat, size: nat): nat
    requires size <= up
  {
    if size + Total(q) > up then Excess(q, up - size) else 0
  }

  function AfterEviction(st: State, size: nat): State
    requires size <= st.up
  {
    var n := Evicted(st.queue, st.up, size);
    assert n <= |st.queue|;
    st.(queue := st.queue[n..], freed := st.freed + Objects(st.queue[..n]))
  }

  function PutState(st: State, r: Record): (State, int) {
    if r.size > st.up then (st, -1)
    else
      var e := AfterEviction(st, r.size);
      var i := IndexOf(e.queue, r.sign);
      var accepted := e.accepted + NonNull(TokenOf(r));
      if i < |e.queue| then
        (e.(queue := RemoveAt(e.queue, i) + [r], accepted := accepted,
            freed := e.freed + NonNull(TokenOf(e.queue[i]))), 1)
      else
        (e.(queue := e.queue + [r], accepted := accepted), 0)
  }

  function GetReply(st: State, s: nat): Reply {
    var i := IndexOf(st.queue, s);
    if i < |st.queue| && st.queue[i].obj != 0 then Found(st.queue[i].obj, st.queue[i].kind) else Nothing
  }

  function OutState(st: State, s: nat): State {
    var i := IndexOf(st.queue, s);
    if i < |st.queue| then
      st.(queue := RemoveAt(st.queue, i), handed := st.handed + NonNull(TokenOf(st.queue[i])))
    else st
  }

  function DeleteState(st: State, s: nat): State {
    var i := IndexOf(st.queue, s);
    if i < |st.queue| then
      st.(queue := RemoveAt(st.queue, i), freed := st.freed + NonNull(TokenOf(st.queue[i])))
    else st
  }

  function CleanupState(st: State): State {
    st.(queue := [], freed := st.freed + Objects(st.queue))
  }

  function Step(st: State, op: Op): (State, Reply) {
    match op
    case Get(s) => (st, GetReply(st, s))
    case Put(r) => var (st', code) := PutState(st, r); (st', Code(code))
    case Out(s) => (OutState(st, s), GetReply(st, s))
    case Delete(s) => (DeleteState(st, s), Code(if GetReply(st, s) == Nothing then -1 else 0))
    case Cleanup => (CleanupState(st), Nothing)
  }

  function Run(st: State, ops: seq<Op>): (State, seq<Reply>)
    decreases |ops|
  {
    if ops == [] then (st, [])
    else
      var (st1, reply) := Step(st, ops[0]);
      var (st2, replies) := Run(st1, ops[1..]);
      (st2, [reply] + replies)
  }

  function Empty(up: nat): State {
    State([], up, multiset{}, multiset{}, multiset{})
  }

  // ---- sums and objects over concatenations ----

  lemma {:induction false} TotalConcat(a: seq<Record>, b: seq<Record>)
    ensures Total(a + b) == Total(a) + Total(b)
  {
    if a == [] {
      assert a + b == b;
    } else {
      TotalConcat(a[1..], b);
      assert (a + b)[1..] == a[1..] + b;
    }
  }

  lemma Assoc(x: multiset<Token>, y: multiset<Token>, z: multiset<Token>)
    ensures x + (y + z) == (x + y) + z
  {
  }

  lemma {:induction false} ObjectsConcat(a: seq<Record>, b: seq<Record>)
    ensures Objects(a + b) == Objects(a) + Objects(b)
  {
    hide NonNull, TokenOf;
    if a == [] {
      assert a + b == b;
    } else {
      ObjectsConcat(a[1..], b);
      assert (a + b)[1..] == a[1..] + b;
      Assoc(NonNull(TokenOf(a[0])), Objects(a[1..]), Objects(b));
    }
  }

  lemma OneRecord(r: Record, b: seq<Record>)
    ensures Total([r] + b) == r.size + Total(b) && Objects([r] + b) == NonNull(TokenOf(r)) + Objects(b)
    ensures Total([r]) == r.size && Objects([r]) == NonNull(TokenOf(r))
  {
    hide NonNull, TokenOf;
    assert ([r] + b)[1..] == b;
    assert [r][1..] == [];
  }

  lemma RemoveParts(q: seq<Record>, i: nat)
    requires i < |q|
    ensures Total(q) == Total(RemoveAt(q, i)) + q[i].size
    ensures Objects(q) == Objects(RemoveAt(q, i)) + NonNull(TokenOf(q[i]))
  {
    hide NonNull, TokenOf, Total, Objects;
    var a, b := q[..i], q[i + 1..];
    assert q == a + ([q[i]] + b);
    TotalConcat(a, b);
    ObjectsConcat(a, b);
    TotalConcat(a, [q[i]] + b);
    ObjectsConcat(a, [q[i]] + b);
    OneRecord(q[i], b);
    Shuffle(Objects(a), NonNull(TokenOf(q[i])), Objects(b));
  }

  lemma Shuffle(x: multiset<Token>, y: multiset<Token>, z: multiset<Token>)
    ensures x + (y + z) == (x + z) + y
  {
  }

  lemma SplitParts(q: seq<Record>, n: nat)
    requires n <= |q|
    ensures Total(q) == Total(q[..n]) + Total(q[n..])
    ensures Objects(q) == Objects(q[..n]) + Objects(q[n..])
  {
    hide Total, Objects;
    assert q == q[..n] + q[n..];
    TotalConcat(q[..n], q[n..]);
    ObjectsConcat(q[..n], q[n..]);
  }

  lemma AppendParts(q: seq<Record>, r: Record)
    ensures Total(q + [r]) == Total(q) + r.size
    ensures Objects(q + [r]) == Objects(q) + NonNull(TokenOf(r))
  {
    hide Total, Objects;
    TotalConcat(q, [r]);
    ObjectsConcat(q, [r]);
    OneRecord(r, []);
  }

  // ---- eviction: the shortest prefix that makes room ----

  lemma {:induction false} ExcessIsShortest(q: seq<Record>, limit: nat)
    ensures Total(q[Excess(q, limit)..]) <= limit
    ensures forall m: nat :: m < Excess(q, limit) ==> m < |q| && Total(q[m..]) > limit
  {
    if Total(q) <= limit {
      assert q[0..] == q;
    } else {
      ExcessIsShortest(q[1..], limit);
      assert q[Excess(q, limit)..] == q[1..][Excess(q[1..], limit)..];
      forall m: nat | m < Excess(q, limit)
        ensures m < |q| && Total(q[m..]) > limit
      {
        if m == 0 { assert q[0..] == q; } else { assert q[m..] == q[1..][m - 1..]; }
      }
    }
  }

  // ---- invariants of every run ----

  ghost predicate DistinctSigns(q: seq<Record>) {
    forall i, j :: 0 <= i < j < |q| ==> q[i].sign != q[j].sign
  }

  // Every object accepted is stored, freed or handed back, each exactly once.
  ghost predicate Conserved(st: State) {
    st.accepted == Objects(st.queue) + st.freed + st.handed
  }

  ghost predicate Sane(st: State) {
    Total(st.queue) <= st.up && DistinctSigns(st.queue) && Conserved(st)
  }

  lemma EvictionKeepsSane(st: State, size: nat)
    requires Sane(st) && size <= st.up
    ensures Sane(AfterEviction(st, size))
    ensures Total(AfterEviction(st, size).queue) + size <= st.up
  {
    hide Total, Objects, Excess;
    var n := Evicted(st.queue, st.up, size);
    SplitParts(st.queue, n);
    ExcessIsShortest(st.queue, st.up - size);
    assert st.queue[0..] == st.queue;
    Shuffle4(Objects(st.queue[..n]), Objects(st.queue[n..]), st.freed, st.handed);
  }

  lemma Shuffle4(x: multiset<Token>, y: multiset<Token>, z: multiset<Token>, w: multiset<Token>)
    ensures (x + y) + z + w == y + (z + x) + w
    ensures (x + y) + z + w == x + (z + y) + w
    ensures (x + y) + z + w == x + z + (w + y)
  {
  }

  lemma PutKeepsSane(st: State, r: Record)
    requires Sane(st)
    ensures Sane(PutState(st, r).0)
  {
    hide Total, Objects, AfterEviction, NonNull, TokenOf;
    if r.size <= st.up {
      EvictionKeepsSane(st, r.size);
      var e := AfterEviction(st, r.size);
      EvictionFrame(st, r.size);
      var q := e.queue;
      var i := IndexOf(q, r.sign);
      if i < |q| {
        RemoveParts(q, i);
        AppendParts(RemoveAt(q, i), r);
        Shuffle4(Objects(RemoveAt(q, i)), NonNull(TokenOf(q[i])), e.freed, e.handed);
        Tail(Objects(RemoveAt(q, i)), NonNull(TokenOf(r)), e.freed + NonNull(TokenOf(q[i])), e.handed);
      } else {
        AppendParts(q, r);
        Tail(Objects(q), NonNull(TokenOf(r)), e.freed, e.handed);
      }
    }
  }

  lemma Tail(x: multiset<Token>, y: multiset<Token>, z: multiset<Token>, w: multiset<Token>)
    ensures (x + z + w) + y == (x + y) + z + w
  {
  }

  lemma EvictionFrame(st: State, size: nat)
    requires size <= st.up
    ensures var e := AfterEviction(st, size); e.up == st.up && e.accepted == st.accepted && e.handed == st.handed
  {
  }

  lemma StepKeepsSane(st: State, op: Op)
    requires Sane(st)
    ensures Sane(Step(st, op).0)
  {
    hide Total, Objects, PutState, NonNull, TokenOf;
    match op
    case Get(_) =>
    case Put(r) => PutKeepsSane(st, r);
    case Out(s) => RemoveKeepsSane(st, s);
    case Delete(s) => RemoveKeepsSane(st, s);
    case Cleanup => CleanupKeepsSane(st);
  }

  lemma RemoveKeepsSane(st: State, s: nat)
    requires Sane(st)
    ensures Sane(OutState(st, s)) && Sane(DeleteState(st, s))
  {
    hide Total, Objects, NonNull, TokenOf;
    var i := IndexOf(st.queue, s);
    if i < |st.queue| {
      RemoveParts(st.queue, i);
      Shuffle4(Objects(RemoveAt(st.queue, i)), NonNull(TokenOf(st.queue[i])), st.freed, st.handed);
    }
  }

  lemma CleanupKeepsSane(st: State)
    requires Sane(st)
    ensures Sane(CleanupState(st))
  {
    hide Total, Objects;
    EmptyParts();
    Shuffle4(multiset{}, Objects(st.queue), st.freed, st.handed);
  }

  lemma EmptyParts()
    ensures Total([]) == 0 && Objects([]) == multiset{}
  {
  }

  // Over any run from the empty cache the stored sizes fit, no signature is
  // stored twice, and every object is accounted for.
  lemma {:induction false} RunKeepsSane(st: State, ops: seq<Op>)
    requires Sane(st)
    ensures Sane(Run(st, ops).0)
    decreases |ops|
  {
    if ops != [] {
      StepKeepsSane(st, ops[0]);
      RunKeepsSane(Step(st, ops[0]).0, ops[1..]);
    }
  }

  lemma RunFromEmpty(up: nat, ops: seq<Op>)
    ensures Sane(Run(Empty(up), ops).0)
  {
    RunKeepsSane(Empty(up), ops);
  }

  // A step stores nothing but what was there and what is put.
  lemma PutMembers(st: State, r: Record, x: Record)
    requires x in PutState(st, r).0.queue
    ensures x in st.queue || (x == r && r.size <= st.up)
  {
    hide Total, Objects, Excess;
  }

  // ---- a put is remembered until it is replaced, removed or pushed out ----

  lemma PutThenGet(st: State, r: Record)
    requires r.size <= st.up && r.obj != 0 && DistinctSigns(st.queue)
    ensures GetReply(PutState(st, r).0, r.sign) == Found(r.obj, r.kind)
  {
    hide Total, Objects, Excess, NonNull;
    var q := PutState(st, r).0.queue;
    assert q[|q| - 1] == r;
    var i := IndexOf(q, r.sign);
    var e := AfterEviction(st, r.size);
    assert forall j :: 0 <= j < |q| - 1 ==> q[j].sign != r.sign;
  }

  // Other signatures that survive the eviction are untouched by a put.
  lemma PutKeepsOthers(st: State, r: Record, s: nat)
    requires r.size <= st.up && s != r.sign
    ensures GetReply(PutState(st, r).0, s) == GetReply(AfterEviction(st, r.size), s)
  {
    hide Total, Objects, Excess, IndexOf, RemoveAt, Evicted, NonNull, TokenOf;
    var e := AfterEviction(st, r.size).queue;
    var i := IndexOf(e, r.sign);
    if i < |e| {
      RemoveSkips(e, i, s);
      AppendSkips(RemoveAt(e, i), r, s);
    } else {
      AppendSkips(e, r, s);
    }
  }

  lemma RemoveSkips(e: seq<Record>, i: nat, s: nat)
    requires i < |e| && e[i].sign != s
    ensures SameFind(e, RemoveAt(e, i), s)
  {
    IndexSkips(e[..i], [e[i]], e[i + 1..], s);
    assert e == e[..i] + [e[i]] + e[i + 1..];
  }

  lemma AppendSkips(e: seq<Record>, r: Record, s: nat)
    requires r.sign != s
    ensures SameFind(e + [r], e, s)
  {
    IndexSkips(e, [r], [], s);
    assert e + [r] + [] == e + [r] && e + [] == e;
  }

  // Two lists give the same record for a signature, or none.
  ghost predicate SameFind(a: seq<Record>, b: seq<Record>, s: nat) {
    var i, j := IndexOf(a, s), IndexOf(b, s);
    (i < |a| <==> j < |b|) && (i < |a| ==> a[i] == b[j])
  }

  // Records of another signature do not disturb a look-up.
  lemma IndexSkips(a: seq<Record>, b: seq<Record>, c: seq<Record>, s: nat)
    requires |b| == 1 && b[0].sign != s
    ensures SameFind(a + b + c, a + c, s)
  {
    var x, y := a + b + c, a + c;
    var i, j := IndexOf(x, s), IndexOf(y, s);
    if i < |x| {
      var i' := if i < |a| then i else i - 1;
      assert y[i'] == x[i];
    }
    if j < |y| {
      var j' := if j < |a| then j else j + 1;
      assert x[j'] == y[j];
    }
    if i < |x| && j < |y| {
      var i' := if i < |a| then i else i - 1;
      var j' := if j < |a| then j else j + 1;
      assert y[i'].sign == s && x[j'].sign == s;
    }
  }
}
