/**
 Phi materialisation on an edge (aarch64PhiMaterialise): the phis of a block take effect together, the
 emitted copies one after the other. The greedy loop emits a copy once nobody pending still reads its
 destination.
 */
module PhiCopies {
  import opened Options
  import opened Words
  import opened Ir
  import opened Equivalence
  import opened Finite

  const MAX_PHIS: nat := 32

  /** Move j reads what move i is about to overwrite. */
  predicate ReadsDst(moves: seq<Move>, j: int, i: int)
  {
    && 0 <= i < |moves| && 0 <= j < |moves|
    && IsTmp(moves[j].src) && IsTmp(moves[i].dst) && moves[j].src.v.id == moves[i].dst.v.id
  }

  /** The destinations are different temporaries, none of them an alloca'd buffer. */
  predicate Distinct(moves: seq<Move>)
  {
    && (forall i :: 0 <= i < |moves| ==> IsTmp(moves[i].dst))
    && (forall i, j :: 0 <= i < j < |moves| ==> moves[i].dst.v != moves[j].dst.v)
  }

  predicate InRegisters(M: Machine, moves: seq<Move>)
  {
    forall i :: 0 <= i < |moves| && IsTmp(moves[i].dst) ==> !Resident(M, moves[i].dst.v)
  }

  predicate Indices(moves: seq<Move>, order: seq<nat>)
  {
    && (forall p :: 0 <= p < |order| ==> order[p] < |moves|)
    && (forall p, q :: 0 <= p < q < |order| ==> order[p] != order[q])
  }

  /** When a copy is made, no copy still to come reads its destination. */
  predicate SafeOrder(moves: seq<Move>, order: seq<nat>)
    requires Indices(moves, order)
  {
    forall p, j :: 0 <= p < |order| && 0 <= j < |moves| && j !in order[..p + 1] ==> !ReadsDst(moves, j, order[p])
  }

  predicate Complete(moves: seq<Move>, order: seq<nat>)
  {
    forall i :: 0 <= i < |moves| ==> i in order
  }

  /** The state after the copies, in the order given. */
  function Sequential(M: Machine, s: State, moves: seq<Move>, order: seq<nat>): State
    requires Indices(moves, order)
    decreases |order|
  {
    if order == [] then s
    else
      var k := |order| - 1;
      var s1 := Sequential(M, s, moves, order[..k]);
      Assign(M, s1, moves[order[k]].dst, Eval(M, s1, moves[order[k]].src))
  }

  function ValueFor(M: Machine, s: State, moves: seq<Move>, i: nat): Word
    requires i < |moves|
  {
    Narrowed(M, ByteSize(moves[i].dst), Eval(M, s, moves[i].src))
  }

  predicate NotAmong(moves: seq<Move>, order: seq<nat>, v: Var)
    requires Indices(moves, order)
  {
    forall p :: 0 <= p < |order| ==> moves[order[p]].dst.Ref? ==> v != moves[order[p]].dst.v
  }

  /** After some copies, their destinations hold the values the sources had at the start. */
  lemma {:induction false} SequentialGet(M: Machine, s: State, moves: seq<Move>, order: seq<nat>)
    requires Distinct(moves) && InRegisters(M, moves) && Indices(moves, order) && SafeOrder(moves, order)
    ensures var s1 := Sequential(M, s, moves, order);
            && s1.mem == s.mem && s1.log == s.log
            && (forall p :: 0 <= p < |order| ==> Get(M, s1, moves[order[p]].dst.v) == ValueFor(M, s, moves, order[p]))
            && (forall v :: NotAmong(moves, order, v) ==> Get(M, s1, v) == Get(M, s, v))
    decreases |order|
  {
    hide ReadsDst, Distinct, SafeOrder, NotAmong, ValueFor;
    if order != [] {
      var k := |order| - 1;
      var before := order[..k];
      assert SafeOrder(moves, before) by { SafePrefix(moves, order, k); }
      SequentialGet(M, s, moves, before);
      var s0 := Sequential(M, s, moves, before);
      UnreadSource(M, s, s0, moves, order);
      OneMore(M, s, s0, moves, order);
    }
  }

  /** The last copy, after the others have had their effect. */
  lemma OneMore(M: Machine, s: State, s0: State, moves: seq<Move>, order: seq<nat>)
    requires order != [] && Distinct(moves) && InRegisters(M, moves) && Indices(moves, order)
    requires var k := |order| - 1;
             && s0.mem == s.mem && s0.log == s.log && Indices(moves, order[..k])
             && Eval(M, s0, moves[order[k]].src) == Eval(M, s, moves[order[k]].src)
             && (forall p :: 0 <= p < k ==> Get(M, s0, moves[order[p]].dst.v) == ValueFor(M, s, moves, order[p]))
             && (forall v :: NotAmong(moves, order[..k], v) ==> Get(M, s0, v) == Get(M, s, v))
    ensures var m := moves[order[|order| - 1]];
            var s1 := Assign(M, s0, m.dst, Eval(M, s0, m.src));
            && s1.mem == s.mem && s1.log == s.log
            && (forall p :: 0 <= p < |order| ==> Get(M, s1, moves[order[p]].dst.v) == ValueFor(M, s, moves, order[p]))
            && (forall v :: NotAmong(moves, order, v) ==> Get(M, s1, v) == Get(M, s, v))
  {
    var k := |order| - 1;
    var m := moves[order[k]];
    var s1 := Assign(M, s0, m.dst, Eval(M, s0, m.src));
    forall v | NotAmong(moves, order, v) ensures Get(M, s1, v) == Get(M, s, v) {
      assert v != moves[order[k]].dst.v;
      assert NotAmong(moves, order[..k], v);
    }
    forall p | 0 <= p < |order| ensures Get(M, s1, moves[order[p]].dst.v) == ValueFor(M, s, moves, order[p]) {
      if p < k { assert moves[order[p]].dst.v != m.dst.v; }
    }
  }

  lemma SafePrefix(moves: seq<Move>, order: seq<nat>, k: nat)
    requires Indices(moves, order) && SafeOrder(moves, order) && k <= |order|
    ensures Indices(moves, order[..k]) && SafeOrder(moves, order[..k])
  {
    hide ReadsDst;
    var before := order[..k];
    forall p, j | 0 <= p < |before| && 0 <= j < |moves| && j !in before[..p + 1]
      ensures !ReadsDst(moves, j, before[p])
    {
      assert before[..p + 1] == order[..p + 1];
    }
  }

  /** The source of the last copy has not been overwritten by the earlier ones. */
  lemma UnreadSource(M: Machine, s: State, s0: State, moves: seq<Move>, order: seq<nat>)
    requires order != [] && Distinct(moves) && Indices(moves, order) && SafeOrder(moves, order)
    requires forall v :: NotAmong(moves, order[..|order| - 1], v) ==> Get(M, s0, v) == Get(M, s, v)
    ensures Eval(M, s0, moves[order[|order| - 1]].src) == Eval(M, s, moves[order[|order| - 1]].src)
  {
    var k := |order| - 1;
    var o := moves[order[k]].src;
    if o.Ref? {
      forall p | 0 <= p < k ensures o.v != moves[order[p]].dst.v {
        assert order[k] !in order[..p + 1];
        assert !ReadsDst(moves, order[k], order[p]);
      }
      assert NotAmong(moves, order[..k], o.v);
    }
  }

  lemma {:induction false} ParallelGet(M: Machine, before: State, s: State, moves: seq<Move>)
    requires Distinct(moves) && InRegisters(M, moves)
    ensures var s1 := AssignAll(M, before, s, moves);
            && s1.mem == s.mem && s1.log == s.log
            && (forall i :: 0 <= i < |moves| ==> Get(M, s1, moves[i].dst.v) == ValueFor(M, before, moves, i))
            && (forall v :: (forall i :: 0 <= i < |moves| ==> v != moves[i].dst.v) ==> Get(M, s1, v) == Get(M, s, v))
    decreases |moves|
  {
    if moves != [] {
      var rest := moves[1..];
      assert Distinct(rest);
      var s1 := Assign(M, s, moves[0].dst, Eval(M, before, moves[0].src));
      ParallelGet(M, before, s1, rest);
      var s2 := AssignAll(M, before, s1, rest);
      forall i | 0 <= i < |moves| ensures Get(M, s2, moves[i].dst.v) == ValueFor(M, before, moves, i) {
        if i > 0 {
          assert moves[i] == rest[i - 1];
        } else {
          assert forall x :: 0 <= x < |rest| ==> moves[0].dst.v != rest[x].dst.v;
        }
      }
      forall v | (forall i :: 0 <= i < |moves| ==> v != moves[i].dst.v) ensures Get(M, s2, v) == Get(M, s, v) {
        assert forall x :: 0 <= x < |rest| ==> v != rest[x].dst.v;
      }
    }
  }

  /** A complete safe order of copies has the effect of all phis at once. */
  lemma SafeOrderIsParallel(M: Machine, s: State, moves: seq<Move>, order: seq<nat>)
    requires Distinct(moves) && InRegisters(M, moves) && Indices(moves, order)
    requires SafeOrder(moves, order) && Complete(moves, order)
    ensures var s1, s2 := Sequential(M, s, moves, order), AssignAll(M, s, s, moves);
            && s1.mem == s2.mem && s1.log == s2.log
            && forall v :: Get(M, s1, v) == Get(M, s2, v)
  {
    SequentialGet(M, s, moves, order);
    ParallelGet(M, s, s, moves);
    forall v ensures Get(M, Sequential(M, s, moves, order), v) == Get(M, AssignAll(M, s, s, moves), v) {
      if i :| 0 <= i < |moves| && v == moves[i].dst.v {
        assert i in order;
        var p :| 0 <= p < |order| && order[p] == i;
      } else {
        assert NotAmong(moves, order, v);
      }
    }
  }

  // ----- getting stuck -----

  /** Every destination in P is still read by another move of P. */
  predicate Blocked(moves: seq<Move>, P: set<nat>)
  {
    && P != {} && (forall i :: i in P ==> i < |moves|)
    && forall i {:trigger ReadWithin(moves, P, i)} :: i in P ==> ReadWithin(moves, P, i)
  }

  predicate ReadWithin(moves: seq<Move>, P: set<nat>, i: nat)
  {
    exists j :: j in P && j != i && ReadsDst(moves, j, i)
  }

  predicate ReadsWithin(moves: seq<Move>, P: set<nat>, j: nat)
  {
    exists i :: i in P && i != j && ReadsDst(moves, j, i)
  }

  /** P is a union of cycles of length at least two: reading is a permutation of P without fixed points. */
  predicate Cycles(moves: seq<Move>, P: set<nat>)
  {
    && P != {} && (forall i :: i in P ==> i < |moves|)
    && (forall i {:trigger ReadWithin(moves, P, i)} :: i in P ==> ReadWithin(moves, P, i))
    && (forall j {:trigger ReadsWithin(moves, P, j)} :: j in P ==> ReadsWithin(moves, P, j))
    && (forall i, j, k :: i in P && j in P && k in P && ReadsDst(moves, j, i) && ReadsDst(moves, k, i) ==> j == k)
  }

  ghost function ReaderOf(moves: seq<Move>, P: set<nat>, i: nat): (j: nat)
    requires Blocked(moves, P) && i in P
    ensures j in P && j != i && ReadsDst(moves, j, i)
  {
    assert ReadWithin(moves, P, i);
    var j :| j in P && j != i && ReadsDst(moves, j, i);
    j
  }

  lemma OneDestination(moves: seq<Move>, j: nat, i: nat, k: nat)
    requires Distinct(moves) && ReadsDst(moves, j, i) && ReadsDst(moves, j, k)
    ensures i == k
  {
    assert moves[i].dst.v == moves[k].dst.v;
  }

  /** Each blocked move is the reader of another one: as many readers as moves, so all of them read. */
  lemma EveryoneReads(moves: seq<Move>, P: set<nat>, j: nat) returns (i: nat)
    requires Distinct(moves) && Blocked(moves, P) && j in P
    ensures i in P && i != j && ReaderOf(moves, P, i) == j && ReadsDst(moves, j, i)
  {
    hide ReadsDst, Distinct, Blocked, Readers, ReaderOf, ReadWithin;
    var f := Readers(moves, P);
    ReadersInjective(moves, P);
    InjectionIsOnto(P, f);
    assert j in f.Values;
    i :| i in f && f[i] == j;
  }

  ghost function Readers(moves: seq<Move>, P: set<nat>): (f: map<nat, nat>)
    requires Blocked(moves, P)
    ensures f.Keys == P && forall i :: i in f ==> f[i] == ReaderOf(moves, P, i)
  {
    map i | i in P :: ReaderOf(moves, P, i)
  }

  lemma ReadersInjective(moves: seq<Move>, P: set<nat>)
    requires Distinct(moves) && Blocked(moves, P)
    ensures var f := Readers(moves, P);
            f.Values <= P && forall a, b :: a in P && b in P && f[a] == f[b] ==> a == b
  {
    hide ReadsDst, Distinct, Blocked;
    var f := Readers(moves, P);
    forall y | y in f.Values ensures y in P {
      var x :| x in f && f[x] == y;
    }
    forall a, b | a in P && b in P && f[a] == f[b] ensures a == b {
      OneDestination(moves, f[a], a, b);
    }
  }

  lemma ReaderUnique(moves: seq<Move>, P: set<nat>, i: nat, j: nat)
    requires Distinct(moves) && Blocked(moves, P) && i in P && j in P && ReadsDst(moves, j, i)
    ensures j == ReaderOf(moves, P, i)
  {
    hide ReadsDst, Distinct, Blocked;
    var x := EveryoneReads(moves, P, j);
    OneDestination(moves, j, x, i);
  }

  /** If the loop makes no progress, what is pending is exactly a union of cycles. */
  lemma BlockedIsCycles(moves: seq<Move>, P: set<nat>)
    requires Distinct(moves) && Blocked(moves, P)
    ensures Cycles(moves, P)
  {
    hide ReadsDst, Distinct, ReadWithin;
    forall j | j in P ensures ReadsWithin(moves, P, j) {
      var i := EveryoneReads(moves, P, j);
    }
    forall i, j, k | i in P && j in P && k in P && ReadsDst(moves, j, i) && ReadsDst(moves, k, i) ensures j == k {
      ReaderUnique(moves, P, i, j);
      ReaderUnique(moves, P, i, k);
    }
  }

  /** A complete safe order exists only if nothing is blocked: the first copy made inside a blocked set
      would overwrite something still to be read. */
  lemma SafeOrderMeansUnblocked(moves: seq<Move>, order: seq<nat>, P: set<nat>)
    requires Indices(moves, order) && SafeOrder(moves, order) && Complete(moves, order)
    ensures !Blocked(moves, P)
  {
    if P != {} && forall i :: i in P ==> i < |moves| {
      var i := FirstCopied(moves, order, P);
      assert !ReadWithin(moves, P, i);
    }
  }

  /** The destination of the first copy made inside P is read by nobody else in P. */
  lemma FirstCopied(moves: seq<Move>, order: seq<nat>, P: set<nat>) returns (i: nat)
    requires Indices(moves, order) && SafeOrder(moves, order) && Complete(moves, order)
    requires P != {} && forall k :: k in P ==> k < |moves|
    ensures i in P && !ReadWithin(moves, P, i)
  {
    var p := FirstOf(moves, order, P);
    i := order[p];
    forall j | j in P && j != i ensures !ReadsDst(moves, j, i) {
      assert j !in order[..p + 1];
    }
  }

  lemma {:induction false} FirstOf(moves: seq<Move>, order: seq<nat>, P: set<nat>) returns (p: nat)
    requires Complete(moves, order) && P != {} && forall i :: i in P ==> i < |moves|
    ensures p < |order| && order[p] in P && forall q :: 0 <= q < p ==> order[q] !in P
  {
    var i :| i in P;
    assert i in order;
    var at :| 0 <= at < |order| && order[at] == i;
    p := 0;
    while order[p] !in P
      invariant p <= at
      invariant forall q :: 0 <= q < p ==> order[q] !in P
      decreases |order| - p
    {
      p := p + 1;
    }
  }

  // ----- the loop -----

  datatype Result = Emitted(order: seq<nat>) | Cycle(pending: set<nat>) | TooMany

  function PendingSet(done: seq<bool>): (P: set<nat>)
  {
    set j | 0 <= j < |done| && !done[j]
  }

  /** `done` marks exactly the moves already in `order`. */
  predicate Marks(done: seq<bool>, order: seq<nat>)
  {
    forall i :: 0 <= i < |done| ==> (done[i] <==> i in order)
  }

  predicate Progressing(moves: seq<Move>, done: seq<bool>, order: seq<nat>)
  {
    |done| == |moves| && Indices(moves, order) && SafeOrder(moves, order) && Marks(done, order)
  }

  /** The inner scan: is the destination of move i read by another pending move? */
  method ReadByPending(moves: seq<Move>, done: array<bool>, i: nat) returns (found: bool)
    requires done.Length == |moves| && i < |moves|
    ensures found <==> ReadWithin(moves, PendingSet(done[..]), i)
  {
    hide ReadsDst;
    found := false;
    var j := 0;
    while j < |moves|
      invariant 0 <= j <= |moves| && !found
      invariant forall k :: 0 <= k < j && !done[k] && k != i ==> !ReadsDst(moves, k, i)
    {
      if j != i && !done[j] && ReadsDst(moves, j, i) {
        assert j in PendingSet(done[..]);
        return true;
      }
      j := j + 1;
    }
    ScanFound(moves, done[..], i);
  }

  lemma ScanFound(moves: seq<Move>, done: seq<bool>, i: nat)
    requires |done| == |moves|
    requires forall k :: 0 <= k < |moves| && !done[k] && k != i ==> !ReadsDst(moves, k, i)
    ensures !ReadWithin(moves, PendingSet(done), i)
  {
  }

  /** One sweep over the phis: emits what is free, and reports whether anything was. */
  method Sweep(moves: seq<Move>, done: array<bool>, order: seq<nat>) returns (after: seq<nat>, progress: bool)
    requires Progressing(moves, done[..], order)
    modifies done
    ensures Progressing(moves, done[..], after)
    ensures if progress then |after| > |order|
            else after == order && forall k :: k in PendingSet(done[..]) ==> ReadWithin(moves, PendingSet(done[..]), k)
  {
    hide SafeOrder, Indices, ReadWithin;
    after, progress := order, false;
    var i := 0;
    while i < |moves|
      invariant 0 <= i <= |moves| && Progressing(moves, done[..], after)
      invariant if progress then |after| > |order|
                else after == order && forall k :: 0 <= k < i && !done[k] ==> ReadWithin(moves, PendingSet(done[..]), k)
    {
      if !done[i] {
        var busy := ReadByPending(moves, done, i);
        if !busy {
          Extended(moves, after, done[..], i);
          ghost var marks := done[..];
          done[i] := true;
          assert done[..] == marks[i := true];
          after := after + [i];
          progress := true;
        }
      }
      i := i + 1;
    }
  }

  // ----- collecting the phis -----

  predicate Leading(code: Code, n: int)
  {
    n <= |code| && forall k :: 0 <= k < n ==> code[k].op.Phi? || code[k].op.Nop?
  }

  /** Some leading phi, with or without a value for this edge, comes after 32 that have one. */
  predicate Overfull(code: Code, from: nat)
  {
    exists i :: 0 <= i < |code| && Leading(code, i) && code[i].op.Phi? && |PhiMoves(code[..i], from)| >= MAX_PHIS
  }

  lemma {:induction false} LeadingMoves(code: Code, from: nat, n: nat)
    requires n <= |code| && Leading(code, n)
    ensures PhiMoves(code, from) == PhiMoves(code[..n], from) + PhiMoves(code[n..], from)
    decreases n
  {
    if n == 0 {
      assert code[0..] == code;
    } else {
      assert Leading(code[1..], n - 1) by {
        forall k | 0 <= k < n - 1 ensures code[1..][k].op.Phi? || code[1..][k].op.Nop? {
          assert code[k + 1] == code[1..][k];
        }
      }
      LeadingMoves(code[1..], from, n - 1);
      assert code[..n][1..] == code[1..][..n - 1] && code[1..][n - 1..] == code[n..];
    }
  }

  lemma NextMove(code: Code, from: nat, n: nat)
    requires n < |code| && Leading(code, n + 1)
    ensures PhiMoves(code[..n + 1], from) == PhiMoves(code[..n], from) + MoveOf(code[n], from)
  {
    var c := code[..n + 1];
    LeadingMoves(c, from, n);
    assert c[..n] == code[..n] && c[n..] == [code[n]] && [code[n]][1..] == [];
    assert PhiMoves([], from) == [];
  }

  lemma RestHasNone(code: Code, from: nat, n: nat)
    requires n <= |code| && Leading(code, n) && (n < |code| ==> !code[n].op.Phi? && !code[n].op.Nop?)
    ensures PhiMoves(code, from) == PhiMoves(code[..n], from)
  {
    LeadingMoves(code, from, n);
  }

  /** The first loop: the moves of this edge, unless there is a phi too many. */
  method Collect(code: Code, from: nat) returns (moves: Option<seq<Move>>)
    ensures moves.None? <==> Overfull(code, from)
    ensures moves.Some? ==> moves.value == PhiMoves(code, from) && |moves.value| <= MAX_PHIS
  {
    hide PhiMoves, Incoming;
    var found: seq<Move> := [];
    assert PhiMoves(code[..0], from) == [] by { NoMoves(from); }
    var i := 0;
    while i < |code| && (code[i].op.Nop? || code[i].op.Phi?)
      invariant 0 <= i <= |code| && Leading(code, i)
      invariant found == PhiMoves(code[..i], from) && |found| <= MAX_PHIS
      invariant forall k :: 0 <= k < i && code[k].op.Phi? ==> |PhiMoves(code[..k], from)| < MAX_PHIS
    {
      NextMove(code, from, i);
      if code[i].op.Phi? {
        if |found| >= MAX_PHIS { return None; }
        var v := Incoming(code[i].pairs, from);
        if v.Some? && !v.value.Null? { found := found + [Move(code[i].dst, v.value)]; }
      }
      i := i + 1;
    }
    RestHasNone(code, from, i);
    return Some(found);
  }

  lemma NoMoves(from: nat)
    ensures PhiMoves([], from) == []
  {
  }

  // ----- the whole edge -----

  /**
   aarch64PhiMaterialise. If it emits, the copies in that order have the effect of the simultaneous
   assignment, on every machine and in every state; it fails exactly when there is a phi too many or some phis
   form cycles, and reports precisely those that are left.
   */
  method Materialise(code: Code, from: nat) returns (r: Result)
    requires Distinct(PhiMoves(code, from))
    ensures r.TooMany? <==> Overfull(code, from)
    ensures var moves := PhiMoves(code, from);
            && (r.Emitted? ==> Indices(moves, r.order) && SafeOrder(moves, r.order) && Complete(moves, r.order))
            && (r.Emitted? ==> forall P: set<nat> :: !Blocked(moves, P))
            && (r.Cycle? ==> Blocked(moves, r.pending) && Cycles(moves, r.pending))
  {
    hide Overfull, Distinct, Indices, SafeOrder, Complete, Blocked, Cycles;
    var moves := Collect(code, from);
    if moves.None? { return TooMany; }
    r := EmitCopies(moves.value);
  }

  /** The greedy loop over the collected copies. */
  method EmitCopies(moves: seq<Move>) returns (r: Result)
    requires Distinct(moves)
    ensures !r.TooMany?
    ensures r.Emitted? ==> Indices(moves, r.order) && SafeOrder(moves, r.order) && Complete(moves, r.order)
    ensures r.Emitted? ==> forall P: set<nat> :: !Blocked(moves, P)
    ensures r.Cycle? ==> Blocked(moves, r.pending) && Cycles(moves, r.pending)
  {
    hide SafeOrder, Cycles, ReadWithin, Complete, Distinct;
    var n := |moves|;
    var done := new bool[n](i => false);
    var order: seq<nat> := [];
    EmptyOrder(moves);
    while |order| < n
      invariant Progressing(moves, done[..], order) && |order| <= n
      decreases n - |order|
    {
      var progress;
      order, progress := Sweep(moves, done, order);
      NoMoreThan(moves, order);
      if !progress {
        var pending := PendingSet(done[..]);
        SomethingPending(moves, order);
        var x :| 0 <= x < n && x !in order;
        assert x in pending;
        BlockedIsCycles(moves, pending);
        return Cycle(pending);
      }
    }
    NoneMissing(moves, order);
    forall P: set<nat> ensures !Blocked(moves, P) {
      SafeOrderMeansUnblocked(moves, order, P);
    }
    return Emitted(order);
  }

  lemma EmptyOrder(moves: seq<Move>)
    ensures Indices(moves, []) && SafeOrder(moves, [])
  {
  }

  lemma Extended(moves: seq<Move>, order: seq<nat>, done: seq<bool>, i: nat)
    requires Progressing(moves, done, order) && i < |moves| && !done[i]
    requires !ReadWithin(moves, PendingSet(done), i)
    ensures Progressing(moves, done[i := true], order + [i])
  {
    hide ReadsDst;
    var longer := order + [i];
    forall p, j | 0 <= p < |longer| && 0 <= j < |moves| && j !in longer[..p + 1]
      ensures !ReadsDst(moves, j, longer[p])
    {
      if p < |order| {
        assert longer[..p + 1] == order[..p + 1];
      } else {
        assert longer[..p + 1] == longer;
        assert j !in order by { assert forall x :: x in order ==> x in longer; }
        assert i in longer;
        assert j in PendingSet(done) && j != i;
      }
    }
  }

  lemma NoMoreThan(moves: seq<Move>, order: seq<nat>)
    requires Indices(moves, order)
    ensures |order| <= |moves|
  {
    DistinctCount(order);
    SubsetSize(Elements(order), Upto(|moves|));
  }

  lemma SomethingPending(moves: seq<Move>, order: seq<nat>)
    requires Indices(moves, order) && |order| < |moves|
    ensures exists x :: 0 <= x < |moves| && x !in order
  {
    if forall x :: 0 <= x < |moves| ==> x in order {
      DistinctCount(order);
      SubsetSize(Upto(|moves|), Elements(order));
      assert false;
    }
  }

  lemma NoneMissing(moves: seq<Move>, order: seq<nat>)
    requires Indices(moves, order) && |order| == |moves|
    ensures Complete(moves, order)
  {
    DistinctCount(order);
    SubsetOfSameSize(Elements(order), Upto(|moves|));
  }
}
