/** The whole userscript run once the list has been scrolled to its end:
    decide for every entry, then act on the entries in document order, one
    at a time, awaiting each fetch and update before the next entry. */
module Script {
  import opened Wrappers
  import opened JsNumber
  import opened Href
  import opened ScoreFetch
  import opened ScoreUpdate
  import opened ListPage

  /** What the network and the page do while the script acts on one entry:
      the outcomes of its score requests, and what each update attempt finds. */
  datatype World = World(provider: seq<ProviderOutcome>, editor: seq<Observation>)

  /** The script acting on one entry: the decision, the score fetch if there
      was one, the value passed to `update`, and how that update went. */
  datatype Effect = Effect(decision: Decision, fetched: Option<FetchRun>, value: int, update: UpdateRun)

  /** The effects in the order they happened. `finished` is false when the
      given world ran out in the middle of an entry (a fetch still retrying,
      or an update attempt with nothing observed), where the script would
      still be waiting; nothing after that entry has happened yet. */
  datatype RunResult = RunResult(effects: seq<Effect>, finished: bool)

  function EntryOf(sections: seq<Section>, d: Decision): Entry
    requires InPage(sections, d)
  {
    sections[d.section].entries[d.entry]
  }

  /** The decisions that lead to a call of `update`, in plan order. */
  function Acting(plan: seq<Decision>): (r: seq<Decision>)
    ensures forall k :: 0 <= k < |r| ==> r[k] in plan && !r[k].action.Skip?
    ensures forall k :: 0 <= k < |plan| && !plan[k].action.Skip? ==> plan[k] in r
  {
    if plan == [] then []
    else
      var rest := Acting(plan[1..]);
      assert forall k :: 1 <= k < |plan| ==> plan[k] == plan[1..][k - 1];
      if plan[0].action.Skip? then rest else [plan[0]] + rest
  }

  /** Dropping the skipped decisions keeps the others in order. */
  lemma {:induction false} ActingKeepsOrder(plan: seq<Decision>)
    requires forall i, j :: 0 <= i < j < |plan| ==> Precedes(plan[i], plan[j])
    ensures forall i, j :: 0 <= i < j < |Acting(plan)| ==> Precedes(Acting(plan)[i], Acting(plan)[j])
  {
    if plan != [] {
      var tail := plan[1..];
      assert forall i, j :: 0 <= i < j < |tail| ==> Precedes(tail[i], tail[j]) by {
        forall i, j | 0 <= i < j < |tail| ensures Precedes(tail[i], tail[j]) {
          assert tail[i] == plan[i + 1] && tail[j] == plan[j + 1];
        }
      }
      ActingKeepsOrder(tail);
      if !plan[0].action.Skip? {
        HeadPrecedesActing(plan);
        var rest := Acting(tail);
        var r := Acting(plan);
        assert r == [plan[0]] + rest;
        forall i, j | 0 <= i < j < |r| ensures Precedes(r[i], r[j]) {
          assert r[j] == rest[j - 1];
          if i > 0 {
            assert r[i] == rest[i - 1];
          }
        }
      }
    }
  }

  /** The first decision of an ordered plan precedes every acting decision
      after it. */
  lemma HeadPrecedesActing(plan: seq<Decision>)
    requires plan != []
    requires forall i, j :: 0 <= i < j < |plan| ==> Precedes(plan[i], plan[j])
    ensures forall k :: 0 <= k < |Acting(plan[1..])| ==> Precedes(plan[0], Acting(plan[1..])[k])
  {
    var tail := plan[1..];
    forall k | 0 <= k < |Acting(tail)| ensures Precedes(plan[0], Acting(tail)[k]) {
      var i :| 0 <= i < |tail| && tail[i] == Acting(tail)[k];
      assert tail[i] == plan[i + 1];
    }
  }

  /** Every decision that acts is one the main loop takes for a released
      entry. */
  lemma ActingDecided(sections: seq<Section>, kind: MediaKind, plan: seq<Decision>)
    requires forall k :: 0 <= k < |plan| ==> Decided(sections, kind, plan[k])
    ensures forall k :: 0 <= k < |Acting(plan)| ==>
      Decided(sections, kind, Acting(plan)[k]) && !Acting(plan)[k].action.Skip?
  {
    forall k | 0 <= k < |Acting(plan)|
      ensures Decided(sections, kind, Acting(plan)[k])
    {
      var i :| 0 <= i < |plan| && plan[i] == Acting(plan)[k];
    }
  }

  lemma ActingInPage(sections: seq<Section>, plan: seq<Decision>)
    requires forall k :: 0 <= k < |plan| ==> InPage(sections, plan[k])
    ensures forall k :: 0 <= k < |Acting(plan)| ==>
      InPage(sections, Acting(plan)[k]) && !Acting(plan)[k].action.Skip?
  {
    forall k | 0 <= k < |Acting(plan)|
      ensures InPage(sections, Acting(plan)[k])
    {
      var i :| 0 <= i < |plan| && plan[i] == Acting(plan)[k];
    }
  }

  /** The script acting on one entry (lines 99 and 103): for a Planning
      entry `update(e, 0)`; otherwise `update(e, await fetchScore(i))`.
      `None` when the world runs out before the entry is done. */
  function Perform(sections: seq<Section>, kind: MediaKind, world: (nat, nat) -> World, d: Decision): (r: Option<Effect>)
    requires InPage(sections, d) && !d.action.Skip?
    ensures r.Some? ==> r.value.decision == d && r.value.update.outcome != Unobserved
    ensures r.Some? ==> forall t :: t in r.value.update.typed ==> t == NumberToString(r.value.value)
  {
    var e := EntryOf(sections, d);
    var w := world(d.section, d.entry);
    match d.action
    case SetScore(v) =>
      var u := Update(e.titleLinks, kind, v, w.editor);
      if u.outcome == Unobserved then None else Some(Effect(d, None, v, u))
    case FetchThenSet(_) =>
      var f := FetchScore(w.provider);
      if f.Pending? then None
      else
        var u := Update(e.titleLinks, kind, f.score, w.editor);
        if u.outcome == Unobserved then None else Some(Effect(d, Some(f), f.score, u))
  }

  /** What acting on one entry does. A Planning entry is written 0 without a
      fetch; any other entry is written the score its fetch settled on. The
      update always finds the entry's link and id, and the text typed is the
      written value. */
  lemma PerformSpec(sections: seq<Section>, kind: MediaKind, world: (nat, nat) -> World, d: Decision)
    requires Decided(sections, kind, d) && !d.action.Skip?
    ensures var r := Perform(sections, kind, world, d);
      && (r.Some? ==> r.value.decision == d)
      && (r.Some? ==> r.value.update.outcome !in {LinkMissing, IdMissing, Unobserved})
      && (r.Some? ==> forall t :: t in r.value.update.typed ==> t == NumberToString(r.value.value))
      && (r.Some? ==> r.value.update == Update(EntryOf(sections, d).titleLinks, kind, r.value.value, world(d.section, d.entry).editor))
      && (r.Some? && d.action.SetScore? ==> r.value.fetched.None? && r.value.value == 0)
      && (r.Some? && d.action.FetchThenSet? ==>
            && r.value.fetched == Some(FetchScore(world(d.section, d.entry).provider))
            && r.value.fetched.value.Settled?
            && r.value.value == r.value.fetched.value.score)
  {
  }

  /** Acting on an entry completes whenever its fetch settles and the editor
      shows three attempts' worth of observations. */
  lemma PerformCompletes(sections: seq<Section>, kind: MediaKind, world: (nat, nat) -> World, d: Decision)
    requires Decided(sections, kind, d) && !d.action.Skip?
    requires d.action.SetScore? || Settles(world(d.section, d.entry).provider)
    requires |world(d.section, d.entry).editor| >= UpdateAttempts
    ensures Perform(sections, kind, world, d).Some?
  {
    var w := world(d.section, d.entry);
    match d.action
    case SetScore(v) =>
      ThreeObservationsSuffice(EntryOf(sections, d).titleLinks, kind, v, w.editor);
    case FetchThenSet(_) =>
      ThreeObservationsSuffice(EntryOf(sections, d).titleLinks, kind, FetchScore(w.provider).score, w.editor);
  }

  /** Acting on an entry is cut short only by a fetch that never settles or
      by fewer observations than three attempts need. */
  lemma PerformStuck(sections: seq<Section>, kind: MediaKind, world: (nat, nat) -> World, d: Decision)
    requires Decided(sections, kind, d) && !d.action.Skip?
    requires Perform(sections, kind, world, d).None?
    ensures || (d.action.FetchThenSet? && !Settles(world(d.section, d.entry).provider))
            || |world(d.section, d.entry).editor| < UpdateAttempts
  {
    if |world(d.section, d.entry).editor| >= UpdateAttempts && (d.action.SetScore? || Settles(world(d.section, d.entry).provider)) {
      PerformCompletes(sections, kind, world, d);
    }
  }

  /** Every acting decision performed against its own part of the world. */
  function PerformAll(sections: seq<Section>, kind: MediaKind, world: (nat, nat) -> World, ds: seq<Decision>): (r: seq<Option<Effect>>)
    requires forall k :: 0 <= k < |ds| ==> InPage(sections, ds[k]) && !ds[k].action.Skip?
    ensures |r| == |ds|
    ensures forall i :: 0 <= i < |ds| ==> r[i] == Perform(sections, kind, world, ds[i])
  {
    seq(|ds|, i requires 0 <= i < |ds| => Perform(sections, kind, world, ds[i]))
  }

  /** The script awaits each entry before it turns to the next, so a run
      keeps the effects up to the first entry the world does not see
      through, and has finished when there is none. */
  function UntilStuck(outs: seq<Option<Effect>>): (r: RunResult)
    ensures |r.effects| <= |outs|
    ensures forall i :: 0 <= i < |r.effects| ==> outs[i] == Some(r.effects[i])
    ensures r.finished <==> |r.effects| == |outs|
    ensures !r.finished ==> outs[|r.effects|].None?
  {
    if outs == [] then RunResult([], true)
    else
      match outs[0]
      case None => RunResult([], false)
      case Some(eff) =>
        var rest := UntilStuck(outs[1..]);
        assert forall i :: 1 <= i < |outs| ==> outs[i] == outs[1..][i - 1];
        RunResult([eff] + rest.effects, rest.finished)
  }

  /** Carrying out the plan in order: skipped decisions do nothing, every
      other decision is performed, and the run stops at the first entry the
      world does not see through. */
  function Execute(sections: seq<Section>, kind: MediaKind, plan: seq<Decision>, world: (nat, nat) -> World): (r: RunResult)
    requires forall k :: 0 <= k < |plan| ==> InPage(sections, plan[k])
    ensures |r.effects| <= |Acting(plan)|
    ensures forall i :: 0 <= i < |r.effects| ==> Perform(sections, kind, world, Acting(plan)[i]) == Some(r.effects[i])
    ensures r.finished <==> |r.effects| == |Acting(plan)|
    ensures !r.finished ==> Perform(sections, kind, world, Acting(plan)[|r.effects|]).None?
  {
    ActingInPage(sections, plan);
    UntilStuck(PerformAll(sections, kind, world, Acting(plan)))
  }

  /** The userscript on the list page at `pathname` whose sections are
      `sections`, in a world that answers as `world` says. */
  function Run(pathname: string, sections: seq<Section>, world: (nat, nat) -> World): (r: RunResult)
    ensures |r.effects| <= |Acting(Plan(sections, KindOf(pathname)))|
    ensures r.finished <==> |r.effects| == |Acting(Plan(sections, KindOf(pathname)))|
  {
    var kind := KindOf(pathname);
    var plan := Plan(sections, kind);
    assert forall k :: 0 <= k < |plan| ==> InPage(sections, plan[k]);
    Execute(sections, kind, plan, world)
  }
}
