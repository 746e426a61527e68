/**
 The snapshot orchestrator (internal/snapshot/orchestrator.go): guest freeze,
 hypervisor pause, savevm or loadvm, resume, thaw. The QMP dial, cont and the
 guest's unquiesce are taken to succeed; everything else is free.
 */
module Snapshot {
  /** `vsock`: a guest target is configured. `pause`: stop the CPUs around savevm. */
  datatype Config = Config(vsock: bool, pause: bool)

  /** The machine: CPUs running, guest filesystem frozen, and whether each stored snapshot holds a frozen guest. */
  datatype Machine = Machine(running: bool, frozen: bool, saved: map<string, bool>)

  /** How the quiesce call went; a failed call may or may not have frozen the guest. */
  datatype Quiesce = Quiesced | QuiesceFailed(frozeAnyway: bool)

  /** How savevm went: whether it reported an error, stored the snapshot, and left the CPUs halted. */
  datatype SaveVm = SaveVm(error: bool, stored: bool, halts: bool)

  /**
   How loadvm went. A failed call may have halted the CPUs or frozen the guest;
   one that went through restored the stored guest or, reporting its trouble
   only as text, did not, and left the CPUs running or not.
   */
  datatype LoadVm = LoadError(halts: bool, freezes: bool) | LoadRan(restores: bool, running: bool)

  /** How delvm went: whether it reported an error, and removed the snapshot. */
  datatype DelVm = DelVm(error: bool, removes: bool)

  datatype Op =
    | Save(tag: string, quiesce: Quiesce, stops: bool, savevm: SaveVm)
    | Restore(tag: string, loadvm: LoadVm)
    | Delete(tag: string, delvm: DelVm)

  /** One call of the orchestrator. Every call brings its own configuration. */
  datatype Call = Call(cfg: Config, op: Op)

  // ------------------------------------------------------------ the program

  /** The hypervisor and guest, as the orchestrator's calls change them. */
  class World {
    var running: bool
    var frozen: bool
    var saved: map<string, bool>

    ghost function View(): Machine
      reads this
    {
      Machine(running, frozen, saved)
    }

    constructor (m: Machine)
      ensures View() == m
    {
      running, frozen, saved := m.running, m.frozen, m.saved;
    }

    method SaveSnapshot(cfg: Config, tag: string, quiesce: Quiesce, stops: bool, savevm: SaveVm) returns (ok: bool)
      modifies this
      ensures ok <==> tag != "" && !savevm.error
      ensures View() == Effect(cfg, old(View()), Save(tag, quiesce, stops, savevm))
    {
      if tag == "" {
        return false;
      }
      var quiesced := false;
      if cfg.vsock {
        match quiesce {
          case Quiesced =>
            frozen := true;
            quiesced := true;
          case QuiesceFailed(frozeAnyway) =>
            frozen := frozen || frozeAnyway;
        }
      }
      if cfg.pause && stops {
        running := false;
      }
      if savevm.stored {
        saved := saved[tag := frozen];
      }
      if savevm.halts {
        running := false;
      }
      if cfg.pause {
        running := true;
      }
      if quiesced {
        frozen := false;
      }
      return !savevm.error;
    }

    method RestoreSnapshot(cfg: Config, tag: string, loadvm: LoadVm) returns (ok: bool)
      modifies this
      ensures ok <==> tag != "" && loadvm.LoadRan?
      ensures View() == Effect(cfg, old(View()), Restore(tag, loadvm))
    {
      if tag == "" {
        return false;
      }
      match loadvm {
        case LoadError(halts, freezes) =>
          running, frozen := running && !halts, frozen || freezes;
          return false;
        case LoadRan(restores, runs) =>
          if restores && tag in saved {
            frozen := saved[tag];
          }
          running := runs;
      }
      running := true;
      if cfg.vsock {
        frozen := false;
      }
      return true;
    }

    method DeleteSnapshot(cfg: Config, tag: string, delvm: DelVm) returns (ok: bool)
      modifies this
      ensures ok <==> tag != "" && !delvm.error
      ensures View() == Effect(cfg, old(View()), Delete(tag, delvm))
    {
      if tag == "" {
        return false;
      }
      if delvm.removes {
        saved := saved - {tag};
      }
      return !delvm.error;
    }
  }

  // ------------------------------------------------------------ the effects

  /** The guest just before savevm. */
  function FrozenForSave(cfg: Config, m: Machine, q: Quiesce): bool {
    if !cfg.vsock then m.frozen else match q case Quiesced => true case QuiesceFailed(f) => m.frozen || f
  }

  function Effect(cfg: Config, m: Machine, op: Op): Machine {
    if op.tag == "" then m
    else
      match op
      case Save(tag, q, stops, sv) =>
        Machine(
          cfg.pause || (m.running && !sv.halts),
          FrozenForSave(cfg, m, q) && !(cfg.vsock && q == Quiesced),
          if sv.stored then m.saved[tag := FrozenForSave(cfg, m, q)] else m.saved)
      case Restore(tag, LoadError(halts, freezes)) => Machine(m.running && !halts, m.frozen || freezes, m.saved)
      case Restore(tag, LoadRan(restores, _)) =>
        Machine(true, !cfg.vsock && (if restores && tag in m.saved then m.saved[tag] else m.frozen), m.saved)
      case Delete(tag, dv) => if dv.removes then m.(saved := m.saved - {tag}) else m
  }

  /**
   Which snapshots are stored after a call: a save stores its own tag, with the
   guest as it was frozen or not, when savevm did; a delete removes its own tag
   when delvm did; every other snapshot stays as it was.
   */
  lemma StoredAfter(m: Machine, c: Call, t: string)
    ensures var after := Effect(c.cfg, m, c.op);
      if t != c.op.tag || t == "" || c.op.Restore? then
        (t in after.saved <==> t in m.saved) && (t in m.saved ==> after.saved[t] == m.saved[t])
      else if c.op.Save? && c.op.savevm.stored then
        t in after.saved && (after.saved[t] <==> m.frozen || (c.cfg.vsock && c.op.quiesce != QuiesceFailed(false)))
      else if c.op.Delete? && c.op.delvm.removes then
        t !in after.saved
      else
        (t in after.saved <==> t in m.saved) && (t in m.saved ==> after.saved[t] == m.saved[t])
  {
  }

  /** The machine after a run of calls. */
  function After(m: Machine, cs: seq<Call>): Machine {
    if cs == [] then m
    else
      var n := |cs| - 1;
      Effect(cs[n].cfg, After(m, cs[..n]), cs[n].op)
  }

  // ------------------------------------------------------------ the guarantee

  predicate Live(m: Machine) {
    m.running && !m.frozen
  }

  /** Running and thawed at the end of the run and at every earlier point. */
  predicate LiveThroughout(m: Machine, cs: seq<Call>) {
    Live(After(m, cs)) && (cs != [] ==> LiveThroughout(m, cs[..|cs| - 1]))
  }

  /**
   No failed call froze the guest or halted the CPUs behind the orchestrator's
   back, a savevm without pause left them running, and a restore without a guest
   target did not bring back a frozen guest.
   */
  predicate Harmless(m: Machine, c: Call) {
    c.op.tag == "" ||
    match c.op
    case Save(_, q, _, sv) => (c.cfg.vsock ==> q != QuiesceFailed(true)) && (c.cfg.pause || !sv.halts)
    case Restore(_, LoadError(halts, freezes)) => !halts && !freezes
    case Restore(tag, LoadRan(restores, _)) => c.cfg.vsock || !restores || tag !in FrozenTags(m)
    case Delete(_, _) => true
  }

  /** The stored snapshots that hold a frozen guest. */
  function FrozenTags(m: Machine): set<string> {
    set t | t in m.saved && m.saved[t]
  }

  /** Every call was harmless where it was made. */
  predicate AllHarmless(m: Machine, cs: seq<Call>) {
    cs == [] || (AllHarmless(m, cs[..|cs| - 1]) && Harmless(After(m, cs[..|cs| - 1]), cs[|cs| - 1]))
  }

  /** One call leaves a live machine live if and only if it was harmless. */
  lemma OperationExact(m: Machine, c: Call)
    requires Live(m)
    ensures Live(Effect(c.cfg, m, c.op)) <==> Harmless(m, c)
  {
  }

  /**
   Over every run, whatever savevm, loadvm and delvm return and however the
   configuration changes from call to call, a live machine stays live throughout
   if and only if each call was harmless.
   */
  lemma {:induction false} AlwaysLive(m: Machine, cs: seq<Call>)
    requires Live(m)
    ensures LiveThroughout(m, cs) <==> AllHarmless(m, cs)
    decreases |cs|
  {
    if cs != [] {
      var n := |cs| - 1;
      AlwaysLive(m, cs[..n]);
      if LiveThroughout(m, cs[..n]) {
        OperationExact(After(m, cs[..n]), cs[n]);
      }
    }
  }

  /**
   Saving with a guest target and restoring without one: both calls go through,
   both pause, the quiesce succeeds, and the guest is left frozen.
   */
  lemma TargetForgotten(m: Machine, tag: string)
    requires Live(m) && tag != ""
    ensures var save := Call(Config(true, true), Save(tag, Quiesced, true, SaveVm(false, true, false)));
      var restore := Call(Config(false, true), Restore(tag, LoadRan(true, true)));
      Live(After(m, [save])) && After(m, [save, restore]).frozen
  {
    var save := Call(Config(true, true), Save(tag, Quiesced, true, SaveVm(false, true, false)));
    var restore := Call(Config(false, true), Restore(tag, LoadRan(true, true)));
    assert [save, restore][..1] == [save] && [save][..0] == [];
    assert After(m, [save]) == Effect(save.cfg, m, save.op);
  }

  // ------------------------------------------ what the orchestrator can see

  /** Two calls the orchestrator cannot tell apart: same request, same visible results. */
  predicate SameResults(a: Call, b: Call) {
    && a.cfg == b.cfg && a.op.tag == b.op.tag
    && match (a.op, b.op)
       case (Save(_, q, _, sv), Save(_, q', _, sv')) => q.Quiesced? == q'.Quiesced? && sv.error == sv'.error
       case (Restore(_, lv), Restore(_, lv')) => lv.LoadRan? == lv'.LoadRan?
       case (Delete(_, dv), Delete(_, dv')) => dv.error == dv'.error
       case _ => false
  }

  ghost predicate SameRun(a: seq<Call>, b: seq<Call>) {
    |a| == |b| && forall i :: 0 <= i < |a| ==> SameResults(a[i], b[i])
  }

  /** The call saves a snapshot of a guest it may have frozen. */
  predicate SavesWithTarget(c: Call) {
    c.op.Save? && c.op.tag != "" && c.cfg.vsock
  }

  /** The tags that may hold a frozen guest, as far as the calls tell: once saved with a target, always suspect. */
  function Suspects(start: set<string>, cs: seq<Call>): set<string> {
    start + set i | 0 <= i < |cs| && SavesWithTarget(cs[i]) :: cs[i].op.tag
  }

  lemma SuspectsSnoc(start: set<string>, cs: seq<Call>)
    requires cs != []
    ensures var n := |cs| - 1;
      Suspects(start, cs) == Suspects(start, cs[..n]) + (if SavesWithTarget(cs[n]) then {cs[n].op.tag} else {})
  {
    var n := |cs| - 1;
    assert cs == cs[..n] + [cs[n]];
  }

  /**
   Told from requests and visible results alone: paused saves of a quiesced guest,
   deletes, and restores that loaded, with a guest target or of a tag that is not
   suspect.
   */
  predicate Assured(suspects: set<string>, c: Call) {
    c.op.tag == "" ||
    match c.op
    case Save(_, q, _, _) => c.cfg.pause && (c.cfg.vsock ==> q.Quiesced?)
    case Restore(tag, lv) => lv.LoadRan? && (c.cfg.vsock || tag !in suspects)
    case Delete(_, _) => true
  }

  /** Every call was assured where it was made. */
  predicate AllAssured(start: set<string>, cs: seq<Call>) {
    cs == [] ||
    (AllAssured(start, cs[..|cs| - 1]) && Assured(Suspects(start, cs[..|cs| - 1]), cs[|cs| - 1]))
  }

  /** The worst that can hide behind a call's visible results. */
  function Worst(c: Call): (w: Call)
    ensures SameResults(c, w)
  {
    match c.op
    case Save(tag, q, stops, sv) =>
      Call(c.cfg, Save(tag, if q.Quiesced? then q else QuiesceFailed(true), stops,
                       SaveVm(sv.error, c.cfg.vsock, true)))
    case Restore(tag, LoadError(_, _)) => Call(c.cfg, Restore(tag, LoadError(true, true)))
    case Restore(tag, LoadRan(_, running)) => Call(c.cfg, Restore(tag, LoadRan(true, running)))
    case Delete(tag, dv) => Call(c.cfg, Delete(tag, DelVm(dv.error, false)))
  }

  /** Assured calls are harmless whatever they hide, and no others are. */
  lemma AssuredExact(m: Machine, c: Call)
    ensures Assured(FrozenTags(m), c) <==> Harmless(m, Worst(c))
    ensures Assured(FrozenTags(m), c) <==> forall w :: SameResults(c, w) ==> Harmless(m, w)
  {
    assert SameResults(c, Worst(c));
  }

  /** In a run of assured calls, whatever they hide, only suspect snapshots hold a frozen guest. */
  lemma {:induction false} AssuredRun(m: Machine, cs: seq<Call>, ws: seq<Call>)
    requires Live(m) && SameRun(cs, ws) && AllAssured(FrozenTags(m), cs)
    ensures LiveThroughout(m, ws)
    ensures FrozenTags(After(m, ws)) <= Suspects(FrozenTags(m), cs)
    decreases |cs|
  {
    if cs != [] {
      var n := |cs| - 1;
      var now := After(m, ws[..n]);
      AssuredRun(m, cs[..n], ws[..n]);
      SuspectsSnoc(FrozenTags(m), cs);
      assert SameResults(cs[n], ws[n]);
      AssuredStep(now, Suspects(FrozenTags(m), cs[..n]), cs[n], ws[n]);
    }
  }

  lemma AssuredStep(m: Machine, suspects: set<string>, c: Call, w: Call)
    requires Live(m) && FrozenTags(m) <= suspects && SameResults(c, w) && Assured(suspects, c)
    ensures var after := Effect(w.cfg, m, w.op);
      Live(after) && FrozenTags(after) <= suspects + (if SavesWithTarget(c) then {c.op.tag} else {})
  {
    OperationExact(m, w);
  }

  function WorstRun(cs: seq<Call>): (ws: seq<Call>)
    ensures |ws| == |cs| && forall i :: 0 <= i < |cs| ==> ws[i] == Worst(cs[i])
  {
    seq(|cs|, i requires 0 <= i < |cs| => Worst(cs[i]))
  }

  lemma WorstStep(m: Machine, c: Call)
    ensures FrozenTags(Effect(c.cfg, m, Worst(c).op))
      == FrozenTags(m) + (if SavesWithTarget(c) then {c.op.tag} else {})
  {
  }

  /** In the worst run exactly the suspect snapshots hold a frozen guest, so it is harmless only if all is assured. */
  lemma {:induction false} WorstIsExact(m: Machine, cs: seq<Call>)
    ensures FrozenTags(After(m, WorstRun(cs))) == Suspects(FrozenTags(m), cs)
    ensures AllHarmless(m, WorstRun(cs)) ==> AllAssured(FrozenTags(m), cs)
    decreases |cs|
  {
    if cs != [] {
      var n := |cs| - 1;
      var now := After(m, WorstRun(cs[..n]));
      assert WorstRun(cs)[..n] == WorstRun(cs[..n]);
      WorstIsExact(m, cs[..n]);
      SuspectsSnoc(FrozenTags(m), cs);
      WorstStep(now, cs[n]);
      AssuredExact(now, cs[n]);
    }
  }

  /**
   The guarantee a caller can rely on: from a live machine, every run with these
   requests and visible results stays running and thawed throughout, if and only
   if each call had no tag, saved with a pause and, given a guest target, a
   successful quiesce, was a delete, or loaded its snapshot with a guest target or
   under a tag that was neither frozen at the start nor saved with a target since.
   */
  lemma GuaranteedLive(m: Machine, cs: seq<Call>)
    requires Live(m)
    ensures (forall ws :: SameRun(cs, ws) ==> LiveThroughout(m, ws)) <==> AllAssured(FrozenTags(m), cs)
  {
    forall ws | SameRun(cs, ws) && AllAssured(FrozenTags(m), cs)
      ensures LiveThroughout(m, ws)
    {
      AssuredRun(m, cs, ws);
    }
    assert SameRun(cs, WorstRun(cs));
    AlwaysLive(m, WorstRun(cs));
    WorstIsExact(m, cs);
  }

  /** In particular, with a guest target, a snapshot taken of a frozen guest restores to a thawed one. */
  lemma FrozenSnapshotRestoresThawed(pause: bool, m: Machine, tag: string, stops: bool, ran: bool)
    requires Live(m) && tag != ""
    ensures var cfg := Config(true, pause);
      var stored := Effect(cfg, m, Save(tag, Quiesced, stops, SaveVm(false, true, false)));
      && stored.saved[tag]
      && Live(stored) && Live(Effect(cfg, stored, Restore(tag, LoadRan(true, ran))))
  {
  }
}
