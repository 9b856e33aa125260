/**
 The generation-checked handle table (src/abi-cpa-host.c): 64 slots, tokens that name a slot and one of
 its generations, and fail-closed retirement. The table is compared, over whole runs, with a plain map
 from live tokens to objects and the list of all tokens ever issued.
 */
module Handles {
  import opened Words
  import opened Arithmetic

  const MAX_SLOTS: nat := 64
  const KIND_AST: nat := 1
  const MAGIC: nat := 0x5A
  const RESERVED: nat := 0xC0DE
  const MAX_GENERATION: nat := 0xFFFF

  /** The table's domain and epoch: nothing in the file ever changes them. */
  const DOMAIN: nat := 1
  const EPOCH: nat := 1

  const OK: Signed := 0
  const NULL_HANDLE: Signed := -1
  const WRONG_KIND: Signed := -2
  const STALE: Signed := -3
  const GENERATION_MISMATCH: Signed := -4
  const NOT_ISSUED: Signed := -5
  const DOMAIN_MISMATCH: Signed := -6
  const DOUBLE_RELEASE: Signed := -7
  const EXPIRED: Signed := -8
  const OUT_OF_MEMORY: Signed := -15
  const SLOT_RETIRED: Signed := -17

  predicate IsStatus(rc: Signed)
  {
    -17 <= rc <= 0
  }

  /** 0 stands for the null pointer. */
  type Obj = nat

  datatype Slot = Slot(live: bool, retired: bool, kind: nat, domain: nat, generation: nat, obj: Obj, epoch: nat)

  const Zeroed: Slot := Slot(false, false, 0, 0, 0, 0, 0)

  // ----- tokens -----

  /** A 64-bit value by its fields, from the low byte up. */
  function Compose(magic: nat, domain: nat, gen: nat, kind: nat, idx1: nat, reserved: nat): int
  {
    magic + 0x100 * (domain + 0x100 * (gen + 0x1_0000 * (kind + 0x100 * (idx1 + 0x100 * reserved))))
  }

  function MagicOf(t: Word): (f: nat) ensures f < 0x100 { t % 0x100 }
  function DomainOf(t: Word): (f: nat) ensures f < 0x100 { t / 0x100 % 0x100 }
  function GenOf(t: Word): (f: nat) ensures f < 0x1_0000 { t / 0x1_0000 % 0x1_0000 }
  function KindOf(t: Word): (f: nat) ensures f < 0x100 { t / 0x1_0000_0000 % 0x100 }
  function IdxOf(t: Word): (f: nat) ensures f < 0x100 { t / 0x100_0000_0000 % 0x100 }
  function ReservedOf(t: Word): (f: nat) ensures f < 0x1_0000 { t / 0x1_0000_0000_0000 }

  predicate FieldsFit(magic: nat, domain: nat, gen: nat, kind: nat, idx1: nat, reserved: nat)
  {
    magic < 0x100 && domain < 0x100 && gen < 0x1_0000 && kind < 0x100 && idx1 < 0x100 && reserved < 0x1_0000
  }

  lemma Split(hi: nat, lo: nat, m: nat)
    requires m > 0 && lo < m
    ensures (lo + m * hi) % m == lo && (lo + m * hi) / m == hi
  {
    var x := lo + m * hi;
    var q, r := x / m, x % m;
    assert x == m * q + r;
    if q < hi { MulMono(q + 1, hi, m); } else if q > hi { MulMono(hi + 1, q, m); }
  }

  lemma Shifts(t: nat)
    ensures t / 0x100 / 0x100 == t / 0x1_0000
    ensures t / 0x1_0000 / 0x1_0000 == t / 0x1_0000_0000
    ensures t / 0x1_0000_0000 / 0x100 == t / 0x100_0000_0000
    ensures t / 0x100_0000_0000 / 0x100 == t / 0x1_0000_0000_0000
  {
  }

  /** Reading the fields back. */
  lemma ComposeFields(magic: nat, domain: nat, gen: nat, kind: nat, idx1: nat, reserved: nat)
    requires FieldsFit(magic, domain, gen, kind, idx1, reserved)
    ensures var t := Compose(magic, domain, gen, kind, idx1, reserved);
            && 0 <= t < TWO64
            && MagicOf(t) == magic && DomainOf(t) == domain && GenOf(t) == gen
            && KindOf(t) == kind && IdxOf(t) == idx1 && ReservedOf(t) == reserved
  {
    var t4 := idx1 + 0x100 * reserved;
    var t3 := kind + 0x100 * t4;
    var t2 := gen + 0x1_0000 * t3;
    var t1 := domain + 0x100 * t2;
    var t := magic + 0x100 * t1;
    Split(t1, magic, 0x100);
    Split(t2, domain, 0x100);
    Split(t3, gen, 0x1_0000);
    Split(t4, kind, 0x100);
    Split(reserved, idx1, 0x100);
    Shifts(t);
  }

  /** Every 64-bit value is the composition of its fields. */
  lemma FieldsCompose(t: Word)
    ensures t == Compose(MagicOf(t), DomainOf(t), GenOf(t), KindOf(t), IdxOf(t), ReservedOf(t))
  {
    Shifts(t);
    var t1 := t / 0x100;
    var t2 := t1 / 0x100;
    var t3 := t2 / 0x1_0000;
    var t4 := t3 / 0x100;
    assert t == t % 0x100 + 0x100 * t1;
    assert t1 == t1 % 0x100 + 0x100 * t2;
    assert t2 == t2 % 0x1_0000 + 0x1_0000 * t3;
    assert t3 == t3 % 0x100 + 0x100 * t4;
    assert t4 == t4 % 0x100 + 0x100 * (t4 / 0x100);
  }

  /** AbiCpaEncode for the only kind and domain in use. */
  function Encode(i: nat, gen: nat): (t: Word)
    requires i < MAX_SLOTS && gen <= MAX_GENERATION
  {
    ComposeFields(MAGIC, DOMAIN, gen, KIND_AST, i + 1, RESERVED);
    Compose(MAGIC, DOMAIN, gen, KIND_AST, i + 1, RESERVED)
  }

  lemma EncodeFields(i: nat, gen: nat)
    requires i < MAX_SLOTS && gen <= MAX_GENERATION
    ensures var t := Encode(i, gen);
            && MagicOf(t) == MAGIC && DomainOf(t) == DOMAIN && GenOf(t) == gen
            && KindOf(t) == KIND_AST && IdxOf(t) == i + 1 && ReservedOf(t) == RESERVED
  {
    ComposeFields(MAGIC, DOMAIN, gen, KIND_AST, i + 1, RESERVED);
  }

  lemma EncodeInjective(i: nat, g: nat, j: nat, h: nat)
    requires i < MAX_SLOTS && j < MAX_SLOTS && g <= MAX_GENERATION && h <= MAX_GENERATION
    requires Encode(i, g) == Encode(j, h)
    ensures i == j && g == h
  {
    EncodeFields(i, g);
    EncodeFields(j, h);
  }

  /** As a signed result a token is negative, but never one of the status codes. */
  lemma TokenIsNoStatus(i: nat, gen: nat)
    requires i < MAX_SLOTS && gen <= MAX_GENERATION
    ensures ToSigned(Encode(i, gen)) < -17 && !IsStatus(ToSigned(Encode(i, gen)))
  {
    EncodeFields(i, gen);
    var t := Encode(i, gen);
    assert t / 0x1_0000_0000_0000 == RESERVED;
  }

  // ----- operations -----

  type Table = s: seq<Slot> | |s| == 64 witness seq(64, i => Zeroed)

  datatype Found = Denied(rc: Signed) | Granted(obj: Obj)

  /** AbiCpaLookup. `wanted` 0 accepts any kind. */
  function Lookup(slots: Table, token: Signed, wanted: nat): Found
  {
    var t := Wrap(token);
    var idx1 := IdxOf(t);
    if token == 0 then Denied(NULL_HANDLE)
    else if MagicOf(t) != MAGIC then Denied(NOT_ISSUED)
    else if ReservedOf(t) != RESERVED then Denied(NOT_ISSUED)
    else if idx1 == 0 || idx1 > MAX_SLOTS then Denied(NOT_ISSUED)
    else
      var s := slots[idx1 - 1];
      if DomainOf(t) != DOMAIN || s.domain != DOMAIN then Denied(DOMAIN_MISMATCH)
      else if s.retired then Denied(SLOT_RETIRED)
      else if KindOf(t) != s.kind then Denied(WRONG_KIND)
      else if wanted != 0 && s.kind != wanted then Denied(WRONG_KIND)
      else if !s.live then Denied(STALE)
      else if GenOf(t) != s.generation then Denied(GENERATION_MISMATCH)
      else if s.kind == KIND_AST && s.epoch != EPOCH then Denied(EXPIRED)
      else Granted(s.obj)
  }

  /** The first slot at or after i that is neither live nor retired. */
  function FirstFree(slots: Table, i: nat): (k: nat)
    requires i <= 64
    ensures i <= k <= 64
    ensures forall j :: i <= j < k ==> slots[j].live || slots[j].retired
    ensures k < 64 ==> !slots[k].live && !slots[k].retired
    decreases 64 - i
  {
    if i < 64 && (slots[i].live || slots[i].retired) then FirstFree(slots, i + 1) else i
  }

  /** AbiCpaIssueAst: the new table and the result. */
  function Issue(slots: Table, obj: Obj): (Table, Signed)
  {
    if obj == 0 then (slots, NULL_HANDLE)
    else
      var i := FirstFree(slots, 0);
      if i >= MAX_SLOTS then (slots, OUT_OF_MEMORY)
      else
        var s := slots[i];
        if s.generation + 1 > MAX_GENERATION then
        (slots[i := s.(retired := true, live := false, obj := 0)], SLOT_RETIRED)
        else
          var g := s.generation + 1;
          (slots[i := Slot(true, s.retired, KIND_AST, DOMAIN, g, obj, EPOCH)], ToSigned(Encode(i, g)))
  }

  /** AbiCpaReleaseInternal. The reserved and kind fields are not looked at. */
  function Release(slots: Table, token: Signed): (Table, Signed)
  {
    var t := Wrap(token);
    var idx1 := IdxOf(t);
    if token == 0 then (slots, NULL_HANDLE)
    else if MagicOf(t) != MAGIC then (slots, NOT_ISSUED)
    else if idx1 == 0 || idx1 > MAX_SLOTS then (slots, NOT_ISSUED)
    else
      var s := slots[idx1 - 1];
      if DomainOf(t) != DOMAIN || s.domain != DOMAIN then (slots, DOMAIN_MISMATCH)
      else if s.retired then (slots, SLOT_RETIRED)
      else if !s.live then (slots, DOUBLE_RELEASE)
      else if GenOf(t) != s.generation then (slots, GENERATION_MISMATCH)
      else
        var g := if s.generation + 1 <= MAX_GENERATION then s.generation + 1 else MAX_GENERATION;
        (slots[idx1 - 1 := s.(live := false, obj := 0, generation := g)], OK)
  }

  /** What every slot of a reachable table looks like: live slots have an odd generation. */
  predicate SaneSlot(s: Slot)
  {
    && s.generation <= MAX_GENERATION
    && (if s.generation == 0 then s.domain == 0 && s.kind == 0
        else s.domain == DOMAIN && s.kind == KIND_AST && s.epoch == EPOCH)
    && (s.live ==> !s.retired && s.generation % 2 == 1)
    && (!s.live && !s.retired ==> s.generation % 2 == 0 || s.generation == MAX_GENERATION)
    && (s.retired ==> s.generation == MAX_GENERATION)
  }

  predicate Sane(slots: Table)
  {
    forall i :: 0 <= i < 64 ==> SaneSlot(slots[i])
  }

  // ----- runs -----

  datatype Event = IssueEvent(obj: Obj) | ReleaseEvent(token: Signed)

  /** The table, the objects bound to live tokens, and all tokens ever issued. */
  datatype World = World(slots: Table, live: map<Signed, Obj>, issued: seq<Signed>)

  function FreshTable(): (s: Table)
    ensures forall i :: 0 <= i < 64 ==> s[i] == Zeroed
  {
    seq(64, i => Zeroed)
  }

  function Initial(): World
  {
    World(FreshTable(), map[], [])
  }

  /** The live token a release names: same slot, generation and domain. */
  function Named(token: Signed): Signed
  {
    var t := Wrap(token);
    if 1 <= IdxOf(t) <= MAX_SLOTS then ToSigned(Encode(IdxOf(t) - 1, GenOf(t))) else 0
  }

  function Apply(w: World, e: Event): World
  {
    match e
    case IssueEvent(obj) =>
      var (slots, rc) := Issue(w.slots, obj);
      if IsStatus(rc) then w.(slots := slots) else World(slots, w.live[rc := obj], w.issued + [rc])
    case ReleaseEvent(token) =>
      var (slots, rc) := Release(w.slots, token);
      if rc == OK then World(slots, w.live - {Named(token)}, w.issued) else w.(slots := slots)
  }

  /** Slot i's tokens so far: its odd generations. */
  predicate WasIssued(slots: Table, token: Signed)
  {
    var t := Wrap(token);
    && 1 <= IdxOf(t) <= MAX_SLOTS && GenOf(t) <= slots[IdxOf(t) - 1].generation && GenOf(t) % 2 == 1
    && token == ToSigned(Encode(IdxOf(t) - 1, GenOf(t)))
  }

  predicate IsLive(slots: Table, token: Signed)
  {
    && WasIssued(slots, token)
    && slots[IdxOf(Wrap(token)) - 1].live && slots[IdxOf(Wrap(token)) - 1].generation == GenOf(Wrap(token))
  }

  function CountFor(issued: seq<Signed>, i: nat): nat
  {
    if issued == [] then 0
    else CountFor(issued[..|issued| - 1], i) + if IdxOf(Wrap(issued[|issued| - 1])) == i + 1 then 1 else 0
  }

  ghost predicate Good(w: World)
  {
    && Sane(w.slots)
    && (forall t :: t in w.issued <==> WasIssued(w.slots, t))
    && (forall i, j :: 0 <= i < j < |w.issued| ==> w.issued[i] != w.issued[j])
    && (forall t :: t in w.live <==> IsLive(w.slots, t))
    && (forall t :: t in w.live ==> w.live[t] == w.slots[IdxOf(Wrap(t)) - 1].obj)
    && (forall i :: 0 <= i < 64 ==> CountFor(w.issued, i) == (w.slots[i].generation + 1) / 2)
  }

  lemma SignedToken(i: nat, g: nat)
    requires i < MAX_SLOTS && g <= MAX_GENERATION
    ensures var token := ToSigned(Encode(i, g));
            && Wrap(token) == Encode(i, g) && IdxOf(Wrap(token)) == i + 1 && GenOf(Wrap(token)) == g
            && DomainOf(Wrap(token)) == DOMAIN && KindOf(Wrap(token)) == KIND_AST && ReservedOf(Wrap(token)) == RESERVED
            && MagicOf(Wrap(token)) == MAGIC && token != 0
  {
    EncodeFields(i, g);
    TokenIsNoStatus(i, g);
  }

  lemma InitialGood()
    ensures Good(Initial())
  {
    hide Encode, IdxOf, GenOf, Wrap;
    assert CountFor([], 0) == 0;
  }

  /** A value with the right fields is the token itself. */
  lemma FieldsDecide(token: Signed)
    requires var t := Wrap(token);
             && MagicOf(t) == MAGIC && DomainOf(t) == DOMAIN && KindOf(t) == KIND_AST && ReservedOf(t) == RESERVED
             && 1 <= IdxOf(t) <= MAX_SLOTS
    ensures token == ToSigned(Encode(IdxOf(Wrap(token)) - 1, GenOf(Wrap(token))))
  {
    FieldsCompose(Wrap(token));
    WrapOfSigned(token);
  }

  /** For every 64-bit value: lookup grants exactly the live tokens, and yields the slot's object. */
  lemma LookupExact(slots: Table, token: Signed, wanted: nat)
    requires Sane(slots)
    ensures Lookup(slots, token, wanted).Granted? <==> IsLive(slots, token) && (wanted == 0 || wanted == KIND_AST)
    ensures IsLive(slots, token) && (wanted == 0 || wanted == KIND_AST) ==>
              Lookup(slots, token, wanted) == Granted(slots[IdxOf(Wrap(token)) - 1].obj)
  {
    hide Encode, Wrap, ToSigned, MagicOf, DomainOf, GenOf, KindOf, IdxOf, ReservedOf;
    var t := Wrap(token);
    if IsLive(slots, token) {
      SignedToken(IdxOf(t) - 1, GenOf(t));
    }
    if Lookup(slots, token, wanted).Granted? {
      assert SaneSlot(slots[IdxOf(t) - 1]);
      FieldsDecide(token);
    }
  }

  /** A release succeeds exactly when slot, generation and domain name a live token and the low byte is right. */
  lemma ReleaseExact(slots: Table, token: Signed)
    requires Sane(slots)
    ensures var t := Wrap(token);
            Release(slots, token).1 == OK <==>
              MagicOf(t) == MAGIC && DomainOf(t) == DOMAIN && 1 <= IdxOf(t) <= MAX_SLOTS && IsLive(slots, Named(token))
  {
    hide Encode, Wrap, ToSigned, MagicOf, DomainOf, GenOf, KindOf, IdxOf, ReservedOf;
    var t := Wrap(token);
    if 1 <= IdxOf(t) <= MAX_SLOTS {
      SignedToken(IdxOf(t) - 1, GenOf(t));
      assert SaneSlot(slots[IdxOf(t) - 1]);
    }
    if token == 0 { ZeroFields(); }
  }

  lemma ZeroFields()
    ensures MagicOf(Wrap(0)) == 0
  {
  }

  lemma {:induction false} CountAppend(issued: seq<Signed>, t: Signed, i: nat)
    ensures CountFor(issued + [t], i) == CountFor(issued, i) + if IdxOf(Wrap(t)) == i + 1 then 1 else 0
  {
    assert (issued + [t])[..|issued|] == issued;
  }

  lemma IssueGood(w: World, obj: Obj)
    requires Good(w)
    ensures Good(Apply(w, IssueEvent(obj)))
  {
    hide Encode, Wrap, ToSigned, MagicOf, DomainOf, GenOf, KindOf, IdxOf, ReservedOf, CountFor, WasIssued, IsLive;
    var i := FirstFree(w.slots, 0);
    var (slots, rc) := Issue(w.slots, obj);
    if obj != 0 && i < MAX_SLOTS {
      var s := w.slots[i];
      assert SaneSlot(s);
      if s.generation + 1 > MAX_GENERATION {
        RetiredGood(w, i);
      } else {
        IssuedGood(w, i, obj);
        TokenIsNoStatus(i, s.generation + 1);
      }
    }
  }

  lemma RetiredGood(w: World, i: nat)
    requires Good(w) && i < MAX_SLOTS && !w.slots[i].live && w.slots[i].generation == MAX_GENERATION
    ensures Good(w.(slots := w.slots[i := w.slots[i].(retired := true, live := false, obj := 0)]))
  {
    hide Encode, Wrap, ToSigned, MagicOf, DomainOf, GenOf, KindOf, IdxOf, ReservedOf, CountFor;
    var s := w.slots[i];
    var slots := w.slots[i := s.(retired := true, live := false, obj := 0)];
    assert SaneSlot(s);
    forall t ensures WasIssued(slots, t) <==> WasIssued(w.slots, t) {
    }
    forall t ensures IsLive(slots, t) <==> IsLive(w.slots, t) {
    }
  }

  lemma IssuedGood(w: World, i: nat, obj: Obj)
    requires Good(w) && i < MAX_SLOTS && !w.slots[i].live && !w.slots[i].retired
    requires w.slots[i].generation < MAX_GENERATION
    ensures var g := w.slots[i].generation + 1;
            var rc := ToSigned(Encode(i, g));
            && rc !in w.issued
            && Good(World(w.slots[i := Slot(true, false, KIND_AST, DOMAIN, g, obj, EPOCH)],
                          w.live[rc := obj], w.issued + [rc]))
  {
    hide Encode, Wrap, ToSigned, MagicOf, DomainOf, GenOf, KindOf, IdxOf, ReservedOf, CountFor;
    var s := w.slots[i];
    var g := s.generation + 1;
    assert SaneSlot(s);
    var rc := ToSigned(Encode(i, g));
    SignedToken(i, g);
    var slots := w.slots[i := Slot(true, false, KIND_AST, DOMAIN, g, obj, EPOCH)];
    assert !WasIssued(w.slots, rc);
    forall t ensures WasIssued(slots, t) <==> t == rc || WasIssued(w.slots, t) {
    }
    forall t ensures IsLive(slots, t) <==> t == rc || IsLive(w.slots, t) {
    }
    forall k | 0 <= k < 64 ensures CountFor(w.issued + [rc], k) == (slots[k].generation + 1) / 2 {
      CountAppend(w.issued, rc, k);
    }
  }

  lemma ReleaseGood(w: World, token: Signed)
    requires Good(w)
    ensures Good(Apply(w, ReleaseEvent(token)))
  {
    hide Encode, Wrap, ToSigned, MagicOf, DomainOf, GenOf, KindOf, IdxOf, ReservedOf, CountFor;
    var t := Wrap(token);
    var (slots, rc) := Release(w.slots, token);
    if rc == OK {
      var i := IdxOf(t) - 1;
      SignedToken(i, GenOf(t));
      ReleasedGood(w, i, GenOf(t));
    }
  }

  lemma ReleasedGood(w: World, i: nat, g: nat)
    requires Good(w) && i < MAX_SLOTS && w.slots[i].live && w.slots[i].generation == g
    ensures g <= MAX_GENERATION
    ensures var g' := if g + 1 <= MAX_GENERATION then g + 1 else MAX_GENERATION;
            Good(World(w.slots[i := w.slots[i].(live := false, obj := 0, generation := g')],
                       w.live - {ToSigned(Encode(i, g))}, w.issued))
  {
    hide Encode, Wrap, ToSigned, MagicOf, DomainOf, GenOf, KindOf, IdxOf, ReservedOf, CountFor;
    var s := w.slots[i];
    assert SaneSlot(s);
    SignedToken(i, g);
    var g' := if g + 1 <= MAX_GENERATION then g + 1 else MAX_GENERATION;
    var rc := ToSigned(Encode(i, g));
    var slots := w.slots[i := s.(live := false, obj := 0, generation := g')];
    assert SaneSlot(slots[i]);
    forall t ensures WasIssued(slots, t) <==> WasIssued(w.slots, t) {
    }
    forall t ensures IsLive(slots, t) <==> IsLive(w.slots, t) && t != rc {
    }
  }

  function Run(events: seq<Event>): World
  {
    if events == [] then Initial() else Apply(Run(events[..|events| - 1]), events[|events| - 1])
  }

  lemma {:induction false} RunGood(events: seq<Event>)
    ensures Good(Run(events))
    decreases |events|
  {
    if events == [] {
      InitialGood();
    } else {
      RunGood(events[..|events| - 1]);
      ApplyGood(Run(events[..|events| - 1]), events[|events| - 1]);
    }
  }

  lemma ApplyGood(w: World, e: Event)
    requires Good(w)
    ensures Good(Apply(w, e))
  {
    match e
    case IssueEvent(obj) => IssueGood(w, obj);
    case ReleaseEvent(token) => ReleaseGood(w, token);
  }

  /**
   After every run: lookup grants exactly the live tokens, with the object bound at issue; all tokens ever
   issued are distinct and none is a status code; no slot has issued more than 32768 of them.
   */
  lemma TableIsMap(events: seq<Event>, wanted: nat)
    requires wanted == 0 || wanted == KIND_AST
    ensures var w := Run(events);
            && (forall token :: Lookup(w.slots, token, wanted).Granted? <==> token in w.live)
            && (forall token :: token in w.live ==> Lookup(w.slots, token, wanted) == Granted(w.live[token]))
            && (forall token :: token in w.live ==> token in w.issued)
            && (forall i, j :: 0 <= i < j < |w.issued| ==> w.issued[i] != w.issued[j])
            && (forall token :: token in w.issued ==> !IsStatus(token))
            && (forall i :: 0 <= i < 64 ==> CountFor(w.issued, i) <= 32768)
  {
    hide Run, Apply, Encode, Wrap, ToSigned, MagicOf, DomainOf, GenOf, KindOf, IdxOf, ReservedOf, CountFor, Lookup;
    RunGood(events);
    var w := Run(events);
    forall token ensures Lookup(w.slots, token, wanted).Granted? <==> token in w.live {
      LookupExact(w.slots, token, wanted);
    }
    forall token | token in w.live ensures Lookup(w.slots, token, wanted) == Granted(w.live[token]) {
      LookupExact(w.slots, token, wanted);
    }
    forall token | token in w.issued ensures !IsStatus(token) {
      TokenIsNoStatus(IdxOf(Wrap(token)) - 1, GenOf(Wrap(token)));
    }
    forall i | 0 <= i < 64 ensures CountFor(w.issued, i) <= 32768 {
      assert SaneSlot(w.slots[i]);
    }
  }

  ghost predicate BindsFresh(w: World, w': World, obj: Obj)
  {
    exists t :: t !in w.issued && obj != 0 && w'.live == w.live[t := obj] && w'.issued == w.issued + [t]
  }

  /** What one event does to the live map, said without the table. */
  lemma EventEffect(w: World, e: Event)
    requires Good(w)
    ensures var w' := Apply(w, e);
            && (e.IssueEvent? ==> (w'.live == w.live && w'.issued == w.issued) || BindsFresh(w, w', e.obj))
            && (e.ReleaseEvent? ==> w' == w || (w'.issued == w.issued && w'.live == w.live - {Named(e.token)}))
  {
    hide Encode, Wrap, ToSigned, MagicOf, DomainOf, GenOf, KindOf, IdxOf, ReservedOf, CountFor, WasIssued, IsLive;
    if e.IssueEvent? && e.obj != 0 {
      var i := FirstFree(w.slots, 0);
      if i < MAX_SLOTS && w.slots[i].generation < MAX_GENERATION {
        IssuedGood(w, i, e.obj);
      }
    }
  }

  /** A token that was issued and is no longer live never becomes live again, whatever happens next. */
  lemma {:induction false} StaleForever(before: seq<Event>, after: seq<Event>, token: Signed)
    requires token in Run(before).issued && token !in Run(before).live
    ensures token in Run(before + after).issued && token !in Run(before + after).live
    decreases |after|
  {
    hide Apply, Good, Named;
    if after == [] {
      assert before + after == before;
    } else {
      var rest, e := after[..|after| - 1], after[|after| - 1];
      StaleForever(before, rest, token);
      assert (before + after)[..|before + after| - 1] == before + rest;
      RunGood(before + rest);
      EventEffect(Run(before + rest), e);
    }
  }

  /** Giving back a live token unbinds it, once: a second release is refused and changes nothing. */
  lemma ReleaseOnce(w: World, token: Signed)
    requires Good(w) && token in w.live
    ensures Release(w.slots, token).1 == OK
    ensures var w' := Apply(w, ReleaseEvent(token));
            && w'.live == w.live - {token} && w'.issued == w.issued
            && Release(w'.slots, token).1 != OK && Apply(w', ReleaseEvent(token)) == w'
  {
    hide Encode, Wrap, ToSigned, MagicOf, DomainOf, GenOf, KindOf, IdxOf, ReservedOf, CountFor;
    var t := Wrap(token);
    SignedToken(IdxOf(t) - 1, GenOf(t));
    ReleaseExact(w.slots, token);
    assert Named(token) == token;
  }

  // ----- what release does not check -----

  /** Any value with the right slot, generation, domain and low byte releases a live handle. */
  lemma ForgedRelease(w: World, i: nat, kind: nat, reserved: nat)
    requires Good(w) && i < MAX_SLOTS && w.slots[i].live && kind < 0x100 && reserved < 0x1_0000
    ensures var g := w.slots[i].generation;
            var t := Compose(MAGIC, DOMAIN, g, kind, i + 1, reserved);
            && 0 <= t < TWO64
            && Release(w.slots, ToSigned(t)).1 == OK
            && (ToSigned(t) in w.live <==> kind == KIND_AST && reserved == RESERVED)
  {
    var g := w.slots[i].generation;
    assert SaneSlot(w.slots[i]);
    ComposeFields(MAGIC, DOMAIN, g, kind, i + 1, reserved);
    ForgedFields(w, i, g, kind, reserved, Compose(MAGIC, DOMAIN, g, kind, i + 1, reserved));
  }

  lemma ForgedFields(w: World, i: nat, g: nat, kind: nat, reserved: nat, t: Word)
    requires Good(w) && i < MAX_SLOTS && w.slots[i].live && w.slots[i].generation == g
    requires MagicOf(t) == MAGIC && DomainOf(t) == DOMAIN && GenOf(t) == g && KindOf(t) == kind && IdxOf(t) == i + 1
    requires ReservedOf(t) == reserved
    ensures Release(w.slots, ToSigned(t)).1 == OK
    ensures ToSigned(t) in w.live <==> kind == KIND_AST && reserved == RESERVED
  {
    assert Wrap(ToSigned(t)) == t;
    if ToSigned(t) == 0 { ZeroFields(); }
    hide Encode, Wrap, ToSigned, MagicOf, DomainOf, GenOf, KindOf, IdxOf, ReservedOf, CountFor;
    assert SaneSlot(w.slots[i]);
    SignedToken(i, g);
    if kind == KIND_AST && reserved == RESERVED {
      FieldsDecide(ToSigned(t));
    }
  }

  /** Releases accept nothing but issued tokens exactly if their reserved and kind fields are right. */
  lemma ReleaseOfIssuedIff(w: World, token: Signed)
    requires Good(w) && Release(w.slots, token).1 == OK
    ensures token in w.issued <==> KindOf(Wrap(token)) == KIND_AST && ReservedOf(Wrap(token)) == RESERVED
  {
    hide Encode, Wrap, ToSigned, MagicOf, DomainOf, GenOf, KindOf, IdxOf, ReservedOf, CountFor;
    var t := Wrap(token);
    var i := IdxOf(t) - 1;
    assert SaneSlot(w.slots[i]);
    SignedToken(i, GenOf(t));
    if KindOf(t) == KIND_AST && ReservedOf(t) == RESERVED {
      FieldsDecide(token);
    }
  }

  // ----- the table as an object -----

  /** The file's static state. */
  class HandleTable {
    var slots: Table
    ghost var world: World

    ghost predicate Valid()
      reads this
    {
      Good(world) && world.slots == slots
    }

    constructor ()
      ensures Valid() && world == Initial()
    {
      InitialGood();
      slots := FreshTable();
      world := Initial();
    }

    /** AbiCpaIssueAst */
    method IssueAst(obj: Obj) returns (rc: Signed)
      requires Valid()
      modifies this
      ensures Valid() && world == Apply(old(world), IssueEvent(obj)) && rc == Issue(old(slots), obj).1
      ensures IsStatus(rc) ==> world.live == old(world.live) && world.issued == old(world.issued)
      ensures !IsStatus(rc) ==> rc !in old(world.issued) && world.live == old(world.live)[rc := obj]
                                && world.issued == old(world.issued) + [rc]
    {
      hide Good, Encode;
      IssueGood(world, obj);
      EventTokens(world, obj);
      world := Apply(world, IssueEvent(obj));
      if obj == 0 { return NULL_HANDLE; }
      var i := 0;
      while i < MAX_SLOTS && (slots[i].live || slots[i].retired)
        invariant 0 <= i <= 64 && FirstFree(slots, i) == FirstFree(slots, 0)
        invariant slots == old(slots)
      {
        i := i + 1;
      }
      if i >= MAX_SLOTS { return OUT_OF_MEMORY; }
      var s := slots[i];
      if s.generation + 1 > MAX_GENERATION {
        slots := slots[i := s.(retired := true, live := false, obj := 0)];
        return SLOT_RETIRED;
      }
      var g := s.generation + 1;
      slots := slots[i := Slot(true, s.retired, KIND_AST, DOMAIN, g, obj, EPOCH)];
      rc := ToSigned(Encode(i, g));
    }

    /** AbiCpaReleaseInternal */
    method ReleaseInternal(token: Signed) returns (rc: Signed)
      requires Valid()
      modifies this
      ensures Valid() && world == Apply(old(world), ReleaseEvent(token)) && rc == Release(old(slots), token).1
      ensures rc == OK ==> world.live == old(world.live) - {Named(token)}
      ensures rc != OK ==> slots == old(slots)
    {
      hide Good, Encode;
      ReleaseGood(world, token);
      world := Apply(world, ReleaseEvent(token));
      if token == 0 { return NULL_HANDLE; }
      var t := Wrap(token);
      if MagicOf(t) != MAGIC { return NOT_ISSUED; }
      var idx1 := IdxOf(t);
      if idx1 == 0 || idx1 > MAX_SLOTS { return NOT_ISSUED; }
      var s := slots[idx1 - 1];
      if DomainOf(t) != DOMAIN || s.domain != DOMAIN { return DOMAIN_MISMATCH; }
      if s.retired { return SLOT_RETIRED; }
      if !s.live { return DOUBLE_RELEASE; }
      if GenOf(t) != s.generation { return GENERATION_MISMATCH; }
      s := s.(live := false, obj := 0);
      if s.generation + 1 <= MAX_GENERATION {
        s := s.(generation := s.generation + 1);
      } else {
        s := s.(generation := MAX_GENERATION);
      }
      slots := slots[idx1 - 1 := s];
      rc := OK;
    }
  }

  lemma EventTokens(w: World, obj: Obj)
    requires Good(w)
    ensures !IsStatus(Issue(w.slots, obj).1) ==> Issue(w.slots, obj).1 !in w.issued
  {
    hide Encode, Wrap, ToSigned, MagicOf, DomainOf, GenOf, KindOf, IdxOf, ReservedOf, CountFor, WasIssued, IsLive;
    var i := FirstFree(w.slots, 0);
    if obj != 0 && i < MAX_SLOTS && w.slots[i].generation < MAX_GENERATION {
      IssuedGood(w, i, obj);
    }
  }
}
