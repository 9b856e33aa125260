/**
 Which status code the handle table answers with: each one's exact condition, said of the tokens that were issued, the
 tokens that are live, and the fields of the value presented.
 */
module HandleAnswers {
  import opened Words
  import opened Handles

  /** The low byte, the reserved field and the slot number are those of a token. */
  predicate WellFormed(token: Signed)
  {
    var t := Wrap(token);
    MagicOf(t) == MAGIC && ReservedOf(t) == RESERVED && 1 <= IdxOf(t) <= MAX_SLOTS
  }

  /** The slot the value names. */
  function SlotOf(token: Signed): int
  {
    IdxOf(Wrap(token)) - 1
  }

  /** One of the slot's tokens is live. */
  ghost predicate InUse(w: World, i: int)
  {
    exists u :: u in w.live && SlotOf(u) == i
  }

  /** The domain is the table's, and the slot has issued something. */
  predicate Known(w: World, token: Signed)
    requires 0 <= SlotOf(token) < MAX_SLOTS
  {
    DomainOf(Wrap(token)) == DOMAIN && CountFor(w.issued, SlotOf(token)) > 0
  }

  predicate KindFits(token: Signed, wanted: nat)
  {
    KindOf(Wrap(token)) == KIND_AST && (wanted == 0 || wanted == KIND_AST)
  }

  ghost predicate Retired(w: World, token: Signed)
    requires 0 <= SlotOf(token) < MAX_SLOTS
  {
    w.slots[SlotOf(token)].retired
  }

  /** What the slots say, in terms of the history. */
  lemma SlotHistory(w: World, i: nat)
    requires Good(w) && i < MAX_SLOTS
    ensures var s := w.slots[i];
            && SaneSlot(s)
            && (s.generation > 0 <==> CountFor(w.issued, i) > 0)
            && (s.generation == MAX_GENERATION <==> CountFor(w.issued, i) == 32768)
            && (s.live <==> InUse(w, i))
  {
    hide Encode, Wrap, ToSigned, MagicOf, DomainOf, GenOf, KindOf, IdxOf, ReservedOf, CountFor;
    var s := w.slots[i];
    assert SaneSlot(s) && CountFor(w.issued, i) == (s.generation + 1) / 2;
    if s.live {
      SignedToken(i, s.generation);
      var u := ToSigned(Encode(i, s.generation));
      assert IsLive(w.slots, u);
      assert u in w.live && SlotOf(u) == i;
    }
    if InUse(w, i) {
      var u :| u in w.live && SlotOf(u) == i;
      assert IsLive(w.slots, u);
    }
  }

  lemma NullIsNone()
    ensures MagicOf(Wrap(0)) != MAGIC
  {
    ZeroFields();
  }

  /** Whether the value can be a token at all. */
  lemma ShapeAnswers(w: World, token: Signed, wanted: nat)
    requires Good(w)
    ensures var r := Lookup(w.slots, token, wanted);
            && (r == Denied(NULL_HANDLE) <==> token == 0)
            && (r == Denied(NOT_ISSUED) <==> token != 0 && !WellFormed(token))
            && (r == Denied(DOMAIN_MISMATCH) <==> WellFormed(token) && !Known(w, token))
  {
    NullIsNone();
    hide Encode, Wrap, ToSigned, MagicOf, DomainOf, GenOf, KindOf, IdxOf, ReservedOf, CountFor, InUse, IsLive, Good;
    if WellFormed(token) { SlotHistory(w, SlotOf(token)); }
  }

  /** What its slot says to a value that can be one. */
  lemma SlotAnswers(w: World, token: Signed, wanted: nat)
    requires Good(w) && WellFormed(token) && Known(w, token)
    ensures Lookup(w.slots, token, wanted) ==
            if Retired(w, token) then Denied(SLOT_RETIRED)
            else if !KindFits(token, wanted) then Denied(WRONG_KIND)
            else if !InUse(w, SlotOf(token)) then Denied(STALE)
            else if token in w.live then Granted(w.slots[SlotOf(token)].obj) else Denied(GENERATION_MISMATCH)
    ensures token in w.live ==> KindOf(Wrap(token)) == KIND_AST && InUse(w, SlotOf(token)) && !Retired(w, token)
  {
    LookupExact(w.slots, token, 0);
    NullIsNone();
    LiveIs(w, token);
    hide Encode, Wrap, ToSigned, MagicOf, DomainOf, GenOf, KindOf, IdxOf, ReservedOf, CountFor, InUse, IsLive, Good;
    SlotHistory(w, SlotOf(token));
  }

  /** Lookup: every answer, for every 64-bit value. The codes are told apart in the order of the tests. */
  lemma LookupAnswers(w: World, token: Signed, wanted: nat)
    requires Good(w)
    ensures var r := Lookup(w.slots, token, wanted);
            && (r == Denied(NULL_HANDLE) <==> token == 0)
            && (r == Denied(NOT_ISSUED) <==> token != 0 && !WellFormed(token))
            && (r == Denied(DOMAIN_MISMATCH) <==> WellFormed(token) && !Known(w, token))
            && (r == Denied(SLOT_RETIRED) <==> WellFormed(token) && Known(w, token) && Retired(w, token))
            && (r == Denied(WRONG_KIND) <==>
                  WellFormed(token) && Known(w, token) && !Retired(w, token) && !KindFits(token, wanted))
            && (r == Denied(STALE) <==>
                  WellFormed(token) && Known(w, token) && !Retired(w, token) && KindFits(token, wanted)
                  && !InUse(w, SlotOf(token)))
            && (r == Denied(GENERATION_MISMATCH) <==>
                  WellFormed(token) && Known(w, token) && !Retired(w, token) && KindFits(token, wanted)
                  && InUse(w, SlotOf(token)) && token !in w.live)
            && (r.Granted? <==> token in w.live && KindFits(token, wanted))
            && r != Denied(EXPIRED)
  {
    LookupExact(w.slots, token, wanted);
    LiveIs(w, token);
    ShapeAnswers(w, token, wanted);
    hide Lookup, WellFormed, Known, Retired, InUse, IsLive, Good, Wrap, KindOf;
    NullNotWellFormed();
    if token in w.live {
      LiveWasIssued(w, token);
      IssuedShape(w, token);
    }
    if WellFormed(token) && Known(w, token) {
      SlotAnswers(w, token, wanted);
    }
  }

  lemma NullNotWellFormed()
    ensures !WellFormed(0)
  {
    NullIsNone();
  }

  lemma LiveIs(w: World, token: Signed)
    requires Good(w)
    ensures token in w.live <==> IsLive(w.slots, token)
  {
  }

  /** Release looks at neither the reserved nor the kind field. */
  predicate Releasable(token: Signed)
  {
    MagicOf(Wrap(token)) == MAGIC && 1 <= IdxOf(Wrap(token)) <= MAX_SLOTS
  }

  /** What its slot says to a value that names one. */
  lemma SlotReleases(w: World, token: Signed)
    requires Good(w) && Releasable(token)
    ensures Release(w.slots, token).1 ==
            if !Known(w, token) then DOMAIN_MISMATCH
            else if Retired(w, token) then SLOT_RETIRED
            else if !InUse(w, SlotOf(token)) then DOUBLE_RELEASE
            else if Named(token) in w.live then OK else GENERATION_MISMATCH
    ensures Named(token) in w.live ==> InUse(w, SlotOf(token))
    ensures Retired(w, token) ==> !InUse(w, SlotOf(token))
  {
    ReleaseExact(w.slots, token);
    NullIsNone();
    LiveIs(w, Named(token));
    hide Encode, Wrap, ToSigned, MagicOf, DomainOf, GenOf, KindOf, IdxOf, ReservedOf, CountFor, InUse, IsLive, Good;
    SlotHistory(w, SlotOf(token));
    if IsLive(w.slots, Named(token)) { NamedSlot(w, token); }
    hide Named;
  }

  lemma NamedSlot(w: World, token: Signed)
    requires Good(w) && 0 <= SlotOf(token) < MAX_SLOTS && IsLive(w.slots, Named(token))
    ensures w.slots[SlotOf(token)].live
  {
    hide Encode, Wrap, ToSigned, MagicOf, DomainOf, GenOf, KindOf, IdxOf, ReservedOf, CountFor, Good;
    SignedToken(SlotOf(token), GenOf(Wrap(token)));
  }

  lemma ReleaseAnswers(w: World, token: Signed)
    requires Good(w)
    ensures var rc := Release(w.slots, token).1;
            && (rc == NULL_HANDLE <==> token == 0)
            && (rc == NOT_ISSUED <==> token != 0 && !Releasable(token))
            && (rc == DOMAIN_MISMATCH <==> Releasable(token) && !Known(w, token))
            && (rc == SLOT_RETIRED <==> Releasable(token) && Known(w, token) && Retired(w, token))
            && (rc == DOUBLE_RELEASE <==>
                  Releasable(token) && Known(w, token) && !Retired(w, token) && !InUse(w, SlotOf(token)))
            && (rc == GENERATION_MISMATCH <==>
                  Releasable(token) && Known(w, token) && InUse(w, SlotOf(token)) && Named(token) !in w.live)
            && (rc == OK <==> Releasable(token) && Known(w, token) && Named(token) in w.live)
  {
    NullIsNone();
    if Releasable(token) {
      SlotReleases(w, token);
      hide Release, Known, Retired, InUse, Good, Wrap, Named;
    } else {
      hide Known, Retired, InUse, Good, Wrap, Named;
    }
  }

  /** The slot is neither in use nor retired, and all before it are. */
  ghost predicate FirstOpen(w: World, i: int)
  {
    && 0 <= i < MAX_SLOTS && !InUse(w, i) && !w.slots[i].retired
    && forall j :: 0 <= j < i ==> InUse(w, j) || w.slots[j].retired
  }

  /** Issue: a new token of the first open slot, unless the slot has issued all its 32768, or there is no open slot. */
  lemma IssueAnswers(w: World, obj: Obj)
    requires Good(w)
    ensures var rc := Issue(w.slots, obj).1;
            && (rc == NULL_HANDLE <==> obj == 0)
            && (rc == OUT_OF_MEMORY <==> obj != 0 && forall i :: 0 <= i < MAX_SLOTS ==> !FirstOpen(w, i))
            && (rc == SLOT_RETIRED <==> obj != 0 && exists i :: FirstOpen(w, i) && CountFor(w.issued, i) == 32768)
            && (!IsStatus(rc) <==>
                  obj != 0 && exists i :: FirstOpen(w, i) && CountFor(w.issued, i) < 32768 && SlotOf(rc) == i)
  {
    hide Encode, Wrap, ToSigned, MagicOf, DomainOf, GenOf, KindOf, IdxOf, ReservedOf, CountFor, InUse, IsLive, Good;
    var i := FirstFree(w.slots, 0);
    forall j | 0 <= j < MAX_SLOTS ensures (w.slots[j].live <==> InUse(w, j)) && SaneSlot(w.slots[j])
      ensures w.slots[j].generation == MAX_GENERATION <==> CountFor(w.issued, j) == 32768
      ensures CountFor(w.issued, j) <= 32768
    {
      SlotHistory(w, j);
      CountBound(w, j);
    }
    forall j ensures FirstOpen(w, j) <==> j == i && i < MAX_SLOTS {}
    assert IsStatus(NULL_HANDLE) && IsStatus(OUT_OF_MEMORY) && IsStatus(SLOT_RETIRED);
    if obj != 0 && i < MAX_SLOTS { assert FirstOpen(w, i); }
    if obj != 0 && i < MAX_SLOTS && w.slots[i].generation < MAX_GENERATION {
      var g := w.slots[i].generation + 1;
      SignedToken(i, g);
      TokenIsNoStatus(i, g);
    }
  }

  lemma CountBound(w: World, i: nat)
    requires Good(w) && i < MAX_SLOTS
    ensures CountFor(w.issued, i) <= 32768
  {
    hide CountFor;
    assert SaneSlot(w.slots[i]);
  }

  // ----- the life of a token -----

  lemma IssuedShape(w: World, token: Signed)
    requires Good(w) && token in w.issued
    ensures WellFormed(token) && Releasable(token) && Known(w, token) && KindFits(token, 0) && Named(token) == token
  {
    hide Encode, Wrap, ToSigned, MagicOf, DomainOf, GenOf, KindOf, IdxOf, ReservedOf, CountFor;
    assert WasIssued(w.slots, token);
    SignedToken(IdxOf(Wrap(token)) - 1, GenOf(Wrap(token)));
    SlotHistory(w, SlotOf(token));
  }

  /** A token that was issued and released: stale while its slot is empty, of another generation once the slot is in use
      again, and of a retired slot in the end. */
  lemma ReleasedTokenAnswers(w: World, token: Signed)
    requires Good(w) && token in w.issued && token !in w.live
    ensures var rc := if Retired(w, token) then SLOT_RETIRED
                      else if InUse(w, SlotOf(token)) then GENERATION_MISMATCH else STALE;
            Lookup(w.slots, token, 0) == Denied(rc)
    ensures Release(w.slots, token).1 ==
            if Retired(w, token) then SLOT_RETIRED
            else if InUse(w, SlotOf(token)) then GENERATION_MISMATCH else DOUBLE_RELEASE
  {
    IssuedShape(w, token);
    LookupAnswers(w, token, 0);
    ReleaseAnswers(w, token);
    SlotHistory(w, SlotOf(token));
    hide Good, Lookup, Release, WellFormed, Releasable, Known, KindFits, InUse, CountFor, Named;
  }

  /** Releasing a live token and asking again at once. */
  lemma JustReleased(w: World, token: Signed)
    requires Good(w) && token in w.live
    ensures var w' := Apply(w, ReleaseEvent(token));
            Lookup(w'.slots, token, 0) == Denied(STALE) && Release(w'.slots, token).1 == DOUBLE_RELEASE
  {
    var w' := Apply(w, ReleaseEvent(token));
    ReleaseGood(w, token);
    ReleaseOnce(w, token);
    LiveWasIssued(w, token);
    IssuedShape(w, token);
    SlotHistory(w, SlotOf(token));
    ReleasedTokenAnswers(w', token);
    SlotHistory(w', SlotOf(token));
    ReleasedSlot(w, token);
  }

  lemma LiveWasIssued(w: World, token: Signed)
    requires Good(w) && token in w.live
    ensures token in w.issued
  {
    assert IsLive(w.slots, token);
  }

  lemma ReleasedSlot(w: World, token: Signed)
    requires Good(w) && token in w.live && 0 <= SlotOf(token) < MAX_SLOTS
    ensures var s := Apply(w, ReleaseEvent(token)).slots[SlotOf(token)]; !s.live && !s.retired
  {
    ReleaseOnce(w, token);
    assert IsLive(w.slots, token);
    assert SaneSlot(w.slots[SlotOf(token)]);
    hide Good;
  }
}
