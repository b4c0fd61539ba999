/**
 * Transactional overlays over the projection caches: reads fall through to the base, writes stay local until commit.
 */
module ProjectionCache {
  import opened Prelude

  /** The writes already published while those of `rest` are still to come. */
  ghost function Written<T>(writes: map<string, T>, rest: set<string>): map<string, T> {
    map k | k in writes && k !in rest :: writes[k]
  }

  lemma OneMoreWritten<T>(below: map<string, T>, writes: map<string, T>, rest: set<string>, key: string)
    requires key in rest && rest <= writes.Keys
    ensures (below + Written(writes, rest))[key := writes[key]] == below + Written(writes, rest - {key})
  {
  }

  /** A lookup: the stored map itself when `base` is null, an overlay with its own writes otherwise. */
  class Lookup<T(!new)> {
    const base: Lookup?<T>
    var writes: map<string, T>
    ghost const depth: nat
    ghost const repr: set<object>

    ghost predicate Valid()
      reads this, repr
      decreases depth
    {
      && this in repr
      && (base != null ==>
            base in repr && base.repr <= repr && this !in base.repr && base.depth < depth && base.Valid())
    }

    /** The map this lookup stands for. */
    ghost function View(): map<string, T>
      requires Valid()
      reads this, repr
      decreases depth
    {
      if base == null then writes else base.View() + writes
    }

    constructor Store(contents: map<string, T>)
      ensures Valid() && base == null && fresh(repr) && repr == {this} && View() == contents && depth == 0
    {
      base, writes, depth, repr := null, contents, 0, {this};
    }

    constructor Overlay(base: Lookup<T>)
      requires base.Valid()
      ensures Valid() && this.base == base && fresh(this) && repr == {this} + base.repr && writes == map[]
      ensures View() == base.View() && depth == base.depth + 1
    {
      this.base, writes, depth, repr := base, map[], base.depth + 1, {this} + base.repr;
    }

    method Get(key: string) returns (v: Option<T>)
      requires Valid()
      ensures v == if key in View() then Some(View()[key]) else None
      decreases depth
    {
      if key in writes { return Some(writes[key]); }
      if base == null { return None; }
      v := base.Get(key);
    }

    method Has(key: string) returns (has: bool)
      requires Valid()
      ensures has <==> key in View()
      decreases depth
    {
      if key in writes { return true; }
      if base == null { return false; }
      has := base.Has(key);
    }

    /** Only this layer changes; everything below keeps its view. */
    method Set(key: string, value: T)
      requires Valid()
      modifies this
      ensures Valid() && View() == old(View())[key := value] && writes == old(writes)[key := value]
      ensures base != null ==> base.Valid() && base.View() == old(base.View())
    {
      ghost var below := if base == null then map[] else base.View();
      writes := writes[key := value];
      assert base != null ==> base.View() == below;
    }

    /** Publishes the writes into the base, in whatever order the map yields them. */
    method Commit()
      requires Valid() && base != null
      modifies base
      ensures Valid() && writes == old(writes)
      ensures base.View() == old(View()) && View() == old(View())
      ensures base.writes == old(base.writes) + writes
    {
      var rest := writes.Keys;
      ghost var below := base.View();
      while rest != {}
        invariant rest <= writes.Keys && writes == old(writes)
        invariant Valid()
        invariant base.View() == below + Written(writes, rest)
        invariant base.writes == old(base.writes) + Written(writes, rest)
        decreases rest
      {
        var key :| key in rest;
        base.Set(key, writes[key]);
        OneMoreWritten(below, writes, rest, key);
        OneMoreWritten(old(base.writes), writes, rest, key);
        rest := rest - {key};
      }
      assert Written(writes, {}) == writes;
      assert below + writes + writes == below + writes;
    }
  }

  // ------------------------------------------------- six maps, many levels

  /** The six caches of a projection, each by its name. */
  datatype Field =
    | ContactMergeAliases
    | SourceContacts
    | DeterministicHandles
    | Conversations
    | ContactNames
    | ConversationNames

  type Caches<T> = map<Field, map<string, T>>

  const FIELDS :=
    {ContactMergeAliases, SourceContacts, DeterministicHandles, Conversations, ContactNames, ConversationNames}

  lemma EveryField(f: Field)
    ensures f in FIELDS
  {
    match f
    case ContactMergeAliases =>
    case _ =>
  }

  ghost predicate Complete<T>(c: map<Field, T>) {
    forall f: Field :: f in c
  }

  datatype Op<T> = Begin | Set(field: Field, key: string, value: T) | CommitTop | Discard

  /** The simple form: begin copies all maps, commit replaces the copy below, discard drops the copy. */
  function Model<T>(stack: seq<Caches<T>>, op: Op<T>): seq<Caches<T>>
    requires |stack| > 0
  {
    var n := |stack| - 1;
    match op
    case Begin => stack + [stack[n]]
    case Set(f, k, v) =>
      if f in stack[n] then stack[n := stack[n][f := stack[n][f][k := v]]] else stack
    case CommitTop => if n == 0 then stack else stack[..n - 1] + [stack[n]]
    case Discard => if n == 0 then stack else stack[..n]
  }

  /** The real form keeps only the writes of each level. */
  function Layered<T>(layers: seq<Caches<T>>, op: Op<T>): seq<Caches<T>>
    requires |layers| > 0
  {
    var n := |layers| - 1;
    match op
    case Begin => layers + [map f: Field | f in FIELDS :: map[]]
    case Set(f, k, v) =>
      if f in layers[n] then layers[n := layers[n][f := layers[n][f][k := v]]] else layers
    case CommitTop => if n == 0 then layers else layers[..n - 1] + [Merged(layers[n - 1], layers[n])]
    case Discard => if n == 0 then layers else layers[..n]
  }

  function Merged<T>(base: Caches<T>, writes: Caches<T>): Caches<T> {
    map f | f in base && f in writes :: base[f] + writes[f]
  }

  /** What the top of the first `n` layers shows. */
  function Shown<T>(layers: seq<Caches<T>>, n: nat): Caches<T>
    requires 0 < n <= |layers|
  {
    if n == 1 then layers[0] else Merged(Shown(layers, n - 1), layers[n - 1])
  }

  /** One cache through all levels: each lookup is an overlay of the one before it, with the writes of its layer. */
  ghost predicate Holds<T(!new)>(chain: seq<Lookup<T>>, layers: seq<Caches<T>>, f: Field)
    reads chain, set l: Lookup<T>, o: object | l in chain && o in l.repr :: o
  {
    && |chain| == |layers|
    && (forall i :: 0 <= i < |chain| ==> chain[i].Valid())
    && (forall i :: 0 <= i < |chain| ==> f in layers[i] && layers[i][f] == chain[i].writes)
    && (chain != [] ==> chain[0].base == null)
    && (forall i :: 1 <= i < |chain| ==> chain[i].base == chain[i - 1])
  }

  /** What the lookup of a level stands for is what the layers up to it show. */
  lemma {:induction false} ViewIsShown<T(!new)>(chain: seq<Lookup<T>>, layers: seq<Caches<T>>, f: Field, n: nat)
    requires Holds(chain, layers, f) && 0 < n <= |chain|
    ensures f in Shown(layers, n) && chain[n - 1].View() == Shown(layers, n)[f]
  {
    var top := chain[n - 1];
    assert top.Valid() && layers[n - 1][f] == top.writes;
    if n > 1 {
      ViewIsShown(chain, layers, f, n - 1);
      assert top.base == chain[n - 2];
      assert top.View() == chain[n - 2].View() + top.writes;
      assert Shown(layers, n)[f] == Shown(layers, n - 1)[f] + layers[n - 1][f];
    }
  }

  lemma {:induction false} LowerOutside<T(!new)>(chain: seq<Lookup<T>>, layers: seq<Caches<T>>, f: Field, i: nat,
      j: nat)
    requires Holds(chain, layers, f) && i < j < |chain|
    ensures chain[i].repr <= chain[j].repr && chain[j] !in chain[i].repr && chain[i] != chain[j]
    decreases j - i
  {
    assert chain[j].Valid() && chain[i].Valid() && chain[j].base == chain[j - 1];
    if i < j - 1 { LowerOutside(chain, layers, f, i, j - 1); }
  }

  /** Committing a level's lookup merges its writes into the layer below, as `Layered` does for each of the six. */
  method CommitTopLookup<T(!new)>(chain: seq<Lookup<T>>, ghost layers: seq<Caches<T>>, ghost f: Field)
    requires Holds(chain, layers, f) && |chain| > 1
    modifies chain[|chain| - 2]
    ensures Holds(chain[..|chain| - 1], Layered(layers, CommitTop), f)
  {
    var n := |chain| - 1;
    forall i | 0 <= i < n - 1 ensures chain[n - 1] !in chain[i].repr && chain[i] != chain[n - 1] {
      LowerOutside(chain, layers, f, i, n - 1);
    }
    assert chain[n].Valid() && chain[n].base == chain[n - 1];
    chain[n].Commit();
    ghost var layers' := Layered(layers, CommitTop);
    forall i | 0 <= i < n ensures chain[i].Valid() && f in layers'[i] && layers'[i][f] == chain[i].writes {
      if i < n - 1 { assert layers'[i] == layers[i]; } else { assert layers'[i] == Merged(layers[n - 1], layers[n]); }
    }
    assert |layers'| == n;
    assert forall i :: 0 <= i < n ==> chain[..n][i] == chain[i];
  }

  ghost predicate Agree<T>(layers: seq<Caches<T>>, stack: seq<Caches<T>>) {
    && |layers| == |stack| > 0
    && (forall i :: 0 <= i < |layers| ==> Complete(layers[i]) && Complete(stack[i]))
    && (forall i :: 0 <= i < |stack| ==> stack[i] == Shown(layers, i + 1))
  }

  /** So lookups whose layers come from any run of operations stand for the whole copies of the simple form. */
  lemma ViewIsCopy<T(!new)>(chain: seq<Lookup<T>>, layers: seq<Caches<T>>, stack: seq<Caches<T>>, ops: seq<Op<T>>,
      f: Field, n: nat)
    requires Agree(layers, stack) && Holds(chain, RunLayered(layers, ops), f) && 0 < n <= |chain|
    ensures n <= |RunModel(stack, ops)| && f in RunModel(stack, ops)[n - 1]
        && chain[n - 1].View() == RunModel(stack, ops)[n - 1][f]
  {
    OverlaysMatchCopies(layers, stack, ops);
    ViewIsShown(chain, RunLayered(layers, ops), f, n);
  }

  /** One operation on the lookups of one cache, as an overlay's methods and `createProjectionCacheOverlay` do it. */
  method StepChain<T(!new)>(chain: seq<Lookup<T>>, op: Op<T>, f: Field, ghost layers: seq<Caches<T>>)
    returns (next: seq<Lookup<T>>)
    requires Holds(chain, layers, f) && chain != [] && forall i :: 0 <= i < |layers| ==> Complete(layers[i])
    modifies chain
    ensures next != [] && forall k :: 0 <= k < |next| ==> next[k] in chain || fresh(next[k])
    ensures Holds(next, Layered(layers, op), f)
  {
    var n := |chain| - 1;
    next := chain;
    match op
    case Begin =>
      next := BeginLookup(chain, layers, f);
    case Set(g, key, value) =>
      if g == f { SetTopLookup(chain, layers, f, key, value); } else { SetElsewhere(chain, layers, f, g, key, value); }
    case CommitTop =>
      if n > 0 {
        CommitTopLookup(chain, layers, f);
        next := chain[..n];
      }
    case Discard =>
      if n > 0 {
        next := chain[..n];
        DiscardHolds(chain, layers, f);
      }
  }

  method BeginLookup<T(!new)>(chain: seq<Lookup<T>>, ghost layers: seq<Caches<T>>, ghost f: Field)
    returns (next: seq<Lookup<T>>)
    requires Holds(chain, layers, f) && chain != []
    ensures next != [] && forall k :: 0 <= k < |next| ==> next[k] in chain || fresh(next[k])
    ensures Holds(next, Layered(layers, Begin), f)
  {
    var overlay := new Lookup<T>.Overlay(chain[|chain| - 1]);
    next := chain + [overlay];
    BeginHolds(chain, overlay, layers, f);
  }

  lemma BeginHolds<T(!new)>(chain: seq<Lookup<T>>, overlay: Lookup<T>, layers: seq<Caches<T>>, f: Field)
    requires Holds(chain, layers, f) && chain != []
    requires overlay.Valid() && overlay.base == chain[|chain| - 1] && overlay.writes == map[]
    ensures Holds(chain + [overlay], Layered(layers, Begin), f)
  {
    EveryField(f);
  }

  lemma SetElsewhere<T(!new)>(chain: seq<Lookup<T>>, layers: seq<Caches<T>>, f: Field, g: Field, key: string, value: T)
    requires Holds(chain, layers, f) && chain != [] && f != g
    ensures Holds(chain, Layered(layers, Op<T>.Set(g, key, value)), f)
  {
  }

  lemma DiscardHolds<T(!new)>(chain: seq<Lookup<T>>, layers: seq<Caches<T>>, f: Field)
    requires Holds(chain, layers, f) && |chain| > 1
    ensures Holds(chain[..|chain| - 1], Layered(layers, Op<T>.Discard), f)
  {
  }

  method SetTopLookup<T(!new)>(chain: seq<Lookup<T>>, ghost layers: seq<Caches<T>>, ghost f: Field, key: string,
      value: T)
    requires Holds(chain, layers, f) && chain != [] && f in layers[|layers| - 1]
    modifies chain[|chain| - 1]
    ensures Holds(chain, Layered(layers, Op<T>.Set(f, key, value)), f)
  {
    var n := |chain| - 1;
    forall i | 0 <= i < n ensures chain[n] !in chain[i].repr && chain[i] != chain[n] {
      LowerOutside(chain, layers, f, i, n);
    }
    chain[n].Set(key, value);
  }

  lemma LayeredStaysComplete<T>(layers: seq<Caches<T>>, op: Op<T>)
    requires |layers| > 0 && forall i :: 0 <= i < |layers| ==> Complete(layers[i])
    ensures forall i :: 0 <= i < |Layered(layers, op)| ==> Complete(Layered(layers, op)[i])
  {
    forall f: Field ensures f in FIELDS { EveryField(f); }
  }

  lemma HoldsLength<T(!new)>(chain: seq<Lookup<T>>, layers: seq<Caches<T>>, f: Field)
    requires Holds(chain, layers, f)
    ensures |layers| == |chain|
  {
  }

  /**
   * After any run of operations on the lookups of a cache, each level's lookup stands for the whole copy of the simple
   * form.
   */
  method RunChain<T(!new)>(
    start: seq<Lookup<T>>, ops: seq<Op<T>>, f: Field, ghost layers: seq<Caches<T>>, ghost stack: seq<Caches<T>>)
    returns (chain: seq<Lookup<T>>)
    requires Holds(start, layers, f) && start != [] && Agree(layers, stack)
    modifies start
    ensures Holds(chain, RunLayered(layers, ops), f) && |chain| == |RunModel(stack, ops)| > 0
    ensures forall n :: 0 <= n < |chain|
              ==> f in RunModel(stack, ops)[n] && chain[n].View() == RunModel(stack, ops)[n][f]
  {
    hide Holds, Complete, Layered, Model;
    chain := start;
    ghost var now := layers;
    assert ops[0..] == ops && |layers| == |start| by { HoldsLength(start, layers, f); }
    for i := 0 to |ops|
      invariant chain != [] && |now| > 0 && Holds(chain, now, f) && forall k :: 0 <= k < |now| ==> Complete(now[k])
      invariant forall k :: 0 <= k < |chain| ==> chain[k] in start || fresh(chain[k])
      invariant RunLayered(now, ops[i..]) == RunLayered(layers, ops)
    {
      assert ops[i..][0] == ops[i] && ops[i..][1..] == ops[i + 1..];
      HoldsLength(chain, now, f);
      chain := StepChain(chain, ops[i], f, now);
      LayeredStaysComplete(now, ops[i]);
      now := Layered(now, ops[i]);
    }
    assert ops[|ops|..] == [];
    AllViewsAreCopies(chain, layers, stack, ops, f);
  }

  lemma AllViewsAreCopies<T(!new)>(chain: seq<Lookup<T>>, layers: seq<Caches<T>>, stack: seq<Caches<T>>,
      ops: seq<Op<T>>, f: Field)
    requires Agree(layers, stack) && Holds(chain, RunLayered(layers, ops), f)
    ensures |chain| == |RunModel(stack, ops)|
    ensures forall n :: 0 <= n < |chain|
              ==> f in RunModel(stack, ops)[n] && chain[n].View() == RunModel(stack, ops)[n][f]
  {
    OverlaysMatchCopies(layers, stack, ops);
    forall n | 0 <= n < |chain| ensures f in RunModel(stack, ops)[n] && chain[n].View() == RunModel(stack, ops)[n][f] {
      ViewIsCopy(chain, layers, stack, ops, f, n + 1);
    }
  }

  lemma {:induction false} ShownPrefix<T>(layers: seq<Caches<T>>, other: seq<Caches<T>>, n: nat)
    requires 0 < n <= |layers| && n <= |other| && layers[..n] == other[..n]
    ensures Shown(layers, n) == Shown(other, n)
  {
    assert layers[n - 1] == layers[..n][n - 1] == other[..n][n - 1] == other[n - 1];
    if n > 1 {
      assert layers[..n - 1] == layers[..n][..n - 1] && other[..n - 1] == other[..n][..n - 1];
      ShownPrefix(layers, other, n - 1);
    }
  }

  lemma ShownKept<T>(layers: seq<Caches<T>>, other: seq<Caches<T>>, n: nat)
    requires n <= |layers| && n <= |other| && layers[..n] == other[..n]
    ensures forall i :: 0 < i <= n ==> Shown(layers, i) == Shown(other, i)
  {
    forall i | 0 < i <= n ensures Shown(layers, i) == Shown(other, i) {
      assert layers[..i] == layers[..n][..i] && other[..i] == other[..n][..i];
      ShownPrefix(layers, other, i);
    }
  }

  lemma MergedEmpty<T>(c: Caches<T>)
    requires Complete(c)
    ensures Merged(c, map f: Field | f in FIELDS :: map[]) == c
  {
    var e: Caches<T> := map f: Field | f in FIELDS :: map[];
    forall f: Field ensures f in e && c[f] + e[f] == c[f] {
      EveryField(f);
    }
  }

  lemma MergedSet<T>(base: Caches<T>, w: Caches<T>, f: Field, k: string, v: T)
    requires Complete(base) && Complete(w)
    ensures Merged(base, w[f := w[f][k := v]]) == Merged(base, w)[f := Merged(base, w)[f][k := v]]
  {
    assert base[f] + w[f][k := v] == (base[f] + w[f])[k := v];
  }

  lemma MergedAssociative<T>(a: Caches<T>, b: Caches<T>, c: Caches<T>)
    requires Complete(a) && Complete(b) && Complete(c)
    ensures Merged(Merged(a, b), c) == Merged(a, Merged(b, c))
  {
    forall f: Field ensures a[f] + b[f] + c[f] == a[f] + (b[f] + c[f]) {
      OverrideAssociative(a[f], b[f], c[f]);
    }
  }

  lemma OverrideAssociative<T>(a: map<string, T>, b: map<string, T>, c: map<string, T>)
    ensures a + b + c == a + (b + c)
  {
    assert (a + b + c).Keys == (a + (b + c)).Keys;
    assert forall k :: k in a + b + c ==> (a + b + c)[k] == (a + (b + c))[k];
  }

  lemma MergedComplete<T>(a: Caches<T>, b: Caches<T>)
    requires Complete(a) && Complete(b)
    ensures Complete(Merged(a, b))
  {
  }

  lemma StepKeepsAgreement<T>(layers: seq<Caches<T>>, stack: seq<Caches<T>>, op: Op<T>)
    requires Agree(layers, stack)
    ensures Agree(Layered(layers, op), Model(stack, op))
  {
    hide Merged, Complete;
    var n := |layers| - 1;
    var layers', stack' := Layered(layers, op), Model(stack, op);
    match op
    case Begin =>
      EmptyLayer<T>();
      ShownKept(layers, layers', n + 1);
      MergedEmpty(stack[n]);
    case Set(f, k, v) =>
      SetLayer(layers[n], f, k, v);
      SetLayer(stack[n], f, k, v);
      ShownKept(layers, layers', n);
      if n > 0 { MergedSet(Shown(layers, n), layers[n], f, k, v); }
    case CommitTop =>
      if n > 0 {
        MergedComplete(layers[n - 1], layers[n]);
        ShownKept(layers, layers', n - 1);
        if n > 1 { MergedAssociative(Shown(layers, n - 1), layers[n - 1], layers[n]); }
      }
    case Discard =>
      ShownKept(layers, layers', if n > 0 then n else 1);
  }

  lemma EmptyLayer<T>()
    ensures Complete<map<string, T>>(map f: Field | f in FIELDS :: map[])
  {
    forall f: Field ensures f in FIELDS { EveryField(f); }
  }

  lemma SetLayer<T>(c: Caches<T>, f: Field, k: string, v: T)
    requires Complete(c)
    ensures f in c && Complete(c[f := c[f][k := v]])
  {
  }

  function RunModel<T>(stack: seq<Caches<T>>, ops: seq<Op<T>>): (r: seq<Caches<T>>)
    requires |stack| > 0
    ensures |r| > 0
    decreases |ops|
  {
    if ops == [] then stack else RunModel(Model(stack, ops[0]), ops[1..])
  }

  function RunLayered<T>(layers: seq<Caches<T>>, ops: seq<Op<T>>): (r: seq<Caches<T>>)
    requires |layers| > 0
    ensures |r| > 0
    decreases |ops|
  {
    if ops == [] then layers else RunLayered(Layered(layers, ops[0]), ops[1..])
  }

  /** After any sequence of begins, writes, commits and discards, every level shows what whole copies would show. */
  lemma {:induction false} OverlaysMatchCopies<T>(layers: seq<Caches<T>>, stack: seq<Caches<T>>, ops: seq<Op<T>>)
    requires Agree(layers, stack)
    ensures Agree(RunLayered(layers, ops), RunModel(stack, ops))
    decreases |ops|
  {
    if ops != [] {
      StepKeepsAgreement(layers, stack, ops[0]);
      OverlaysMatchCopies(Layered(layers, ops[0]), Model(stack, ops[0]), ops[1..]);
    }
  }

  /** How many levels above the starting one a well-nested sequence is, or none if it pops below its start. */
  function Nesting<T>(ops: seq<Op<T>>): Option<nat> {
    if ops == [] then Some(0)
    else
      var n := Nesting(ops[..|ops| - 1]);
      match ops[|ops| - 1]
      case Begin => if n.Some? then Some(n.value + 1) else None
      case Set(_, _, _) => n
      case _ => if n.Some? && n.value > 0 then Some(n.value - 1) else None
  }

  lemma {:induction false} RunSnoc<T>(layers: seq<Caches<T>>, ops: seq<Op<T>>)
    requires |layers| > 0 && ops != []
    ensures RunLayered(layers, ops) == Layered(RunLayered(layers, ops[..|ops| - 1]), ops[|ops| - 1])
    decreases |ops|
  {
    if |ops| > 1 {
      RunSnoc(Layered(layers, ops[0]), ops[1..]);
      assert ops[1..][..|ops| - 2] == ops[..|ops| - 1][1..];
    }
  }

  lemma {:induction false} NestedKeepsBase<T>(layers: seq<Caches<T>>, ops: seq<Op<T>>, inner: seq<Op<T>>)
    requires |layers| > 0 && ops == [Op<T>.Begin] + inner && Nesting(inner).Some?
    ensures |RunLayered(layers, ops)| == |layers| + 1 + Nesting(inner).value
    ensures RunLayered(layers, ops)[..|layers|] == layers
    decreases |inner|
  {
    RunSnoc(layers, ops);
    var n := |inner| - 1;
    if inner == [] {
      assert ops[..0] == [];
    } else {
      assert ops[..|ops| - 1] == [Op<T>.Begin] + inner[..n];
      NestedKeepsBase(layers, [Op<T>.Begin] + inner[..n], inner[..n]);
    }
  }

  /** Discarding an overlay undoes everything since its begin, nested overlays and commits included. */
  lemma DiscardUndoes<T>(layers: seq<Caches<T>>, inner: seq<Op<T>>)
    requires |layers| > 0 && Nesting(inner) == Some(0)
    ensures RunLayered(layers, [Op<T>.Begin] + inner + [Op<T>.Discard]) == layers
  {
    var ops := [Op<T>.Begin] + inner;
    NestedKeepsBase(layers, ops, inner);
    RunSnoc(layers, ops + [Op<T>.Discard]);
    assert (ops + [Op<T>.Discard])[..|ops|] == ops;
  }
}
