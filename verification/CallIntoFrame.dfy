/** The parameter slots a callee's prologue fills are those of its own frame layout. */
module CallIntoFrame {
  import opened Options
  import opened Regions
  import CallLowering
  import CS = CallSequence
  import CP = CalleePrologue
  import ScalarCall
  import Frame

  /** The declarations as the prologue sees them: sizes and offsets from the layout. */
  predicate Declared(ds: seq<CP.Decl>, f: Frame.FuncDecl, l: Frame.Layout)
  {
    && |ds| == |f.params| == |l.params|
    && forall i :: 0 <= i < |ds| && ds[i].Fixed? ==>
         ds[i].slot == l.params[i] && f.params[i] == Frame.Plain(ds[i].p.size, l.params[i].None?)
  }

  /** Layout offsets are below the frame pointer and do not overlap. */
  lemma LayoutSlotsApart(ds: seq<CP.Decl>, f: Frame.FuncDecl, l: Frame.Layout)
    requires Declared(ds, f, l) && Frame.Describes(l, f)
    ensures CP.SlotsApart(CP.ParamsOf(ds), CP.SlotsOf(ds))
  {
    hide Frame.Total, Frame.HiddenSize, Frame.ParamSpace;
    var ps, slots, n := CP.ParamsOf(ds), CP.SlotsOf(ds), CP.FixedCount(ds);
    forall i | 0 <= i < n && slots[i].Some? ensures slots[i].value + ps[i].size <= 0 {
      var r := SlotRegion(ds, f, l, i);
    }
    forall i, j | 0 <= i < j < n && slots[i].Some? && slots[j].Some?
      ensures Apart(Region(slots[i].value, ps[i].size), Region(slots[j].value, ps[j].size))
    {
      var v := Frame.FrameView(f, [], 0);
      var r := SlotRegion(ds, f, l, i);
      var q := SlotRegion(ds, f, l, j);
      Frame.FrameDisjoint(v, Frame.ParamItem(i), Frame.ParamItem(j));
    }
  }

  lemma SlotRegion(ds: seq<CP.Decl>, f: Frame.FuncDecl, l: Frame.Layout, i: nat) returns (r: Region)
    requires Declared(ds, f, l) && Frame.Describes(l, f) && i < CP.FixedCount(ds) && CP.SlotsOf(ds)[i].Some?
    ensures Frame.FrameView(f, [], 0).RegionOf(Frame.ParamItem(i)) == Some(r)
    ensures r.lo == CP.SlotsOf(ds)[i].value && CP.ParamsOf(ds)[i].size <= r.size && r.lo + r.size <= 0
  {
    hide Frame.Total, Frame.HiddenSize, Frame.ParamSpace;
    var v := Frame.FrameView(f, [], 0);
    assert ds[i].Fixed? && f.params[i] == Frame.Plain(ds[i].p.size, false);
    r := v.RegionOf(Frame.ParamItem(i)).value;
    Frame.InBand(v, Frame.ParamItem(i));
  }

  /** Calls deliver into the frame the layout describes: no assumption about the slots is left. */
  lemma CallDeliversIntoFrame(args: seq<CallLowering.Param>, ret: CS.Return, vals: seq<seq<CallLowering.Cell>>,
                              st: CallLowering.Machine, ds: seq<CP.Decl>, entry: CallLowering.Machine,
                              f: Frame.FuncDecl, l: Frame.Layout)
    requires CS.Callable(args, ret) && CS.CallValues(args, ret, vals)
    requires var ps := args[CS.First(ret)..];
             && CallLowering.FloatsFit(ps, |ps|)
             && CP.FixedCount(ds) <= |ps| && CP.ParamsOf(ds) == ps[..CP.FixedCount(ds)]
    requires Declared(ds, f, l) && Frame.Describes(l, f)
    requires CP.Undisturbed(CallLowering.Exec(vals, st, CS.Before(args, ret)), entry)
    ensures var st' := CP.Exec(entry, CP.AllOps(CP.ParamsOf(ds), CP.SlotsOf(ds), CP.FixedCount(ds)));
            forall i :: 0 <= i < CP.FixedCount(ds) ==>
              CP.Received(st', CP.ParamsOf(ds), CP.SlotsOf(ds), i, CS.First(ret), vals)
  {
    hide CallLowering.Exec, CP.Exec, CP.AllOps, CP.Received, CP.Undisturbed, CP.SlotsApart, CS.Before, Frame.Describes;
    LayoutSlotsApart(ds, f, l);
    CP.CallDelivers(args, ret, vals, st, ds, entry);
  }

  lemma ScalarCallDeliversIntoFrame(ps: seq<CallLowering.Param>, named: nat, vals: seq<seq<CallLowering.Cell>>,
                                    st: CallLowering.Machine, ds: seq<CP.Decl>, entry: CallLowering.Machine,
                                    f: Frame.FuncDecl, l: Frame.Layout)
    requires ScalarCall.Scalars(ps, named) && CallLowering.Values(0, ps, vals)
    requires CP.FixedCount(ds) <= named && CP.ParamsOf(ds) == ps[..CP.FixedCount(ds)]
    requires Declared(ds, f, l) && Frame.Describes(l, f)
    requires CP.Undisturbed(CallLowering.Exec(vals, st, ScalarCall.Before(ps, named)), entry)
    ensures var st' := CP.Exec(entry, CP.AllOps(CP.ParamsOf(ds), CP.SlotsOf(ds), CP.FixedCount(ds)));
            forall i :: 0 <= i < CP.FixedCount(ds) ==> CP.Received(st', CP.ParamsOf(ds), CP.SlotsOf(ds), i, 0, vals)
  {
    hide CallLowering.Exec, CP.Exec, CP.AllOps, CP.Received, CP.Undisturbed, CP.SlotsApart, Frame.Describes;
    hide ScalarCall.Before;
    LayoutSlotsApart(ds, f, l);
    ScalarCall.ScalarCallDelivers(ps, named, vals, st, ds, entry);
  }
}
