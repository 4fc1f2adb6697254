/** What a run of the script does and does not do to the list, stated over
    every page and every behaviour of the network and the editor. */
module ScriptProperties {
  import opened Wrappers
  import opened JsNumber
  import opened Href
  import opened ScoreFetch
  import opened ScoreUpdate
  import opened ListPage
  import opened Script

  /** Each effect of a run is the performance of the matching acting
      decision of the plan, and that decision is the main loop's decision
      for a released entry. */
  lemma EffectsArePerformedDecisions(pathname: string, sections: seq<Section>, world: (nat, nat) -> World)
    ensures var kind := KindOf(pathname);
            var plan := Plan(sections, kind);
            var r := Run(pathname, sections, world);
            && |r.effects| <= |Acting(plan)|
            && forall i :: 0 <= i < |r.effects| ==>
                 && r.effects[i].decision == Acting(plan)[i]
                 && Decided(sections, kind, r.effects[i].decision)
                 && !r.effects[i].decision.action.Skip?
                 && Perform(sections, kind, world, Acting(plan)[i]) == Some(r.effects[i])
  {
    var kind := KindOf(pathname);
    var plan := Plan(sections, kind);
    assert forall k :: 0 <= k < |plan| ==> InPage(sections, plan[k]) && Decided(sections, kind, plan[k]);
    ExecutedDecisions(sections, kind, plan, world);
    assert Run(pathname, sections, world) == Execute(sections, kind, plan, world);
  }

  /** The same for carrying out any plan of the main loop's decisions. */
  lemma ExecutedDecisions(sections: seq<Section>, kind: MediaKind, plan: seq<Decision>, world: (nat, nat) -> World)
    requires forall k :: 0 <= k < |plan| ==> InPage(sections, plan[k]) && Decided(sections, kind, plan[k])
    ensures var r := Execute(sections, kind, plan, world);
            && |r.effects| <= |Acting(plan)|
            && forall i :: 0 <= i < |r.effects| ==>
                 && r.effects[i].decision == Acting(plan)[i]
                 && Decided(sections, kind, r.effects[i].decision)
                 && !r.effects[i].decision.action.Skip?
                 && Perform(sections, kind, world, Acting(plan)[i]) == Some(r.effects[i])
  {
    ActingDecided(sections, kind, plan);
  }

  /** With no sections on the page the script does nothing (line 79). */
  lemma NoSectionsNoEffects(pathname: string, world: (nat, nat) -> World)
    ensures Run(pathname, [], world) == RunResult([], true)
  {
    assert Plan([], KindOf(pathname)) == [];
  }

  /** The script acts on entries in document order: sections in order, and
      entries in order within a section; so no entry is acted on twice. */
  lemma EffectsFollowDocumentOrder(pathname: string, sections: seq<Section>, world: (nat, nat) -> World)
    ensures var r := Run(pathname, sections, world);
            forall i, j :: 0 <= i < j < |r.effects| ==> Precedes(r.effects[i].decision, r.effects[j].decision)
  {
    var kind := KindOf(pathname);
    EffectsArePerformedDecisions(pathname, sections, world);
    ActingKeepsOrder(Plan(sections, kind));
  }

  /** What acting on one entry means for that entry. Only a released entry
      with a link under the type path and an id in it is touched. In a
      Planning section the value written is 0, with no fetch, and only into
      an entry that shows a score whose text does not parse to 0. Outside
      Planning an entry that shows a score is never touched; any other entry
      gets a fetch from its own provider outcomes and is written exactly the
      score that fetch settled on. Whatever is typed is the written value. */
  predicate Eligible(sections: seq<Section>, kind: MediaKind, world: (nat, nat) -> World, eff: Effect)
    requires InPage(sections, eff.decision)
  {
    var d := eff.decision;
    var name := sections[d.section].name;
    var e := sections[d.section].entries[d.entry];
    && !e.notYetReleased
    && Locate(e.titleLinks, kind).Found?
    && (IsPlanning(name) ==>
          && ShowsScore(e) && ParseInt(ScoreText(e).value) != Some(0)
          && eff.value == 0 && eff.fetched.None?)
    && (!IsPlanning(name) ==>
          && !ShowsScore(e)
          && eff.fetched == Some(FetchScore(world(d.section, d.entry).provider))
          && eff.fetched.value.Settled?
          && eff.value == eff.fetched.value.score)
    && eff.update.outcome !in {LinkMissing, IdMissing, Unobserved}
    && (forall t :: t in eff.update.typed ==> t == NumberToString(eff.value))
  }

  /** Performing a decision of the main loop yields an eligible effect. */
  lemma PerformedEffectIsEligible(sections: seq<Section>, kind: MediaKind, world: (nat, nat) -> World, d: Decision, eff: Effect)
    requires Decided(sections, kind, d) && !d.action.Skip?
    requires Perform(sections, kind, world, d) == Some(eff)
    ensures eff.decision == d && Eligible(sections, kind, world, eff)
  {
    DecideSpec(sections[d.section].name, sections[d.section].entries[d.entry], kind);
    PerformSpec(sections, kind, world, d);
  }

  /** Every effect of a run is eligible. */
  lemma EffectsOnlyOnEligibleEntries(pathname: string, sections: seq<Section>, world: (nat, nat) -> World)
    ensures var r := Run(pathname, sections, world);
            forall i :: 0 <= i < |r.effects| ==>
              InPage(sections, r.effects[i].decision) && Eligible(sections, KindOf(pathname), world, r.effects[i])
  {
    var kind := KindOf(pathname);
    var plan := Plan(sections, kind);
    var r := Run(pathname, sections, world);
    EffectsArePerformedDecisions(pathname, sections, world);
    forall i | 0 <= i < |r.effects|
      ensures InPage(sections, r.effects[i].decision) && Eligible(sections, kind, world, r.effects[i])
    {
      PerformedEffectIsEligible(sections, kind, world, Acting(plan)[i], r.effects[i]);
    }
  }

  /** In a Planning section only 0 is ever written: the text typed into the
      score field is `"0"`. */
  lemma PlanningWritesOnlyZero(pathname: string, sections: seq<Section>, world: (nat, nat) -> World)
    ensures var r := Run(pathname, sections, world);
            forall i :: 0 <= i < |r.effects| ==>
              && InPage(sections, r.effects[i].decision)
              && (IsPlanning(sections[r.effects[i].decision.section].name) ==>
                    && r.effects[i].value == 0
                    && r.effects[i].fetched.None?
                    && forall t :: t in r.effects[i].update.typed ==> t == "0")
  {
    var r := Run(pathname, sections, world);
    EffectsOnlyOnEligibleEntries(pathname, sections, world);
    assert NumberToString(0) == "0";
  }

  /** A run that finishes acts on every released entry whose decision is not
      to skip, and on each of them exactly once. */
  lemma FinishedRunActsOnEveryEligibleEntry(pathname: string, sections: seq<Section>, world: (nat, nat) -> World, s: nat, j: nat)
    requires Run(pathname, sections, world).finished
    requires s < |sections| && j < |sections[s].entries|
    requires !sections[s].entries[j].notYetReleased
    requires !Decide(sections[s].name, sections[s].entries[j], KindOf(pathname)).Skip?
    ensures var r := Run(pathname, sections, world);
            && (exists i :: 0 <= i < |r.effects| && r.effects[i].decision.section == s && r.effects[i].decision.entry == j)
            && forall i, i' ::
                 (&& 0 <= i < |r.effects| && 0 <= i' < |r.effects|
                  && r.effects[i].decision.section == s && r.effects[i].decision.entry == j
                  && r.effects[i'].decision.section == s && r.effects[i'].decision.entry == j) ==> i == i'
  {
    FinishedRunReaches(pathname, sections, world, s, j);
    EffectsFollowDocumentOrder(pathname, sections, world);
    OrderedActsOnce(Run(pathname, sections, world).effects, s, j);
  }

  /** A finished run reaches every released entry that is not skipped. */
  lemma FinishedRunReaches(pathname: string, sections: seq<Section>, world: (nat, nat) -> World, s: nat, j: nat)
    requires Run(pathname, sections, world).finished
    requires s < |sections| && j < |sections[s].entries|
    requires !sections[s].entries[j].notYetReleased
    requires !Decide(sections[s].name, sections[s].entries[j], KindOf(pathname)).Skip?
    ensures var r := Run(pathname, sections, world);
            exists i :: 0 <= i < |r.effects| && r.effects[i].decision.section == s && r.effects[i].decision.entry == j
  {
    var kind := KindOf(pathname);
    var plan := Plan(sections, kind);
    var k := PlanReaches(sections, kind, s, j);
    assert Run(pathname, sections, world) == Execute(sections, kind, plan, world);
    ExecutedReaches(sections, kind, plan, world, k);
  }

  /** The position in the plan of the decision for a released entry that
      is not skipped. */
  lemma PlanReaches(sections: seq<Section>, kind: MediaKind, s: nat, j: nat) returns (k: nat)
    requires s < |sections| && j < |sections[s].entries|
    requires !sections[s].entries[j].notYetReleased
    requires !Decide(sections[s].name, sections[s].entries[j], kind).Skip?
    ensures var plan := Plan(sections, kind);
            && (forall k' :: 0 <= k' < |plan| ==> InPage(sections, plan[k']))
            && k < |plan| && plan[k].section == s && plan[k].entry == j && !plan[k].action.Skip?
  {
    var plan := Plan(sections, kind);
    k :| 0 <= k < |plan| && plan[k].section == s && plan[k].entry == j;
  }

  /** Carrying out a plan to its end performs each of its acting decisions. */
  lemma ExecutedReaches(sections: seq<Section>, kind: MediaKind, plan: seq<Decision>, world: (nat, nat) -> World, k: nat)
    requires forall k' :: 0 <= k' < |plan| ==> InPage(sections, plan[k'])
    requires Execute(sections, kind, plan, world).finished
    requires k < |plan| && !plan[k].action.Skip?
    ensures var r := Execute(sections, kind, plan, world);
            exists i :: 0 <= i < |r.effects| && r.effects[i].decision == plan[k]
  {
    var r := Execute(sections, kind, plan, world);
    assert plan[k] in Acting(plan);
    var a :| 0 <= a < |Acting(plan)| && Acting(plan)[a] == plan[k];
    ActingInPage(sections, plan);
    assert Perform(sections, kind, world, Acting(plan)[a]) == Some(r.effects[a]);
  }

  /** Effects in strict document order act on each entry at most once. */
  lemma OrderedActsOnce(effects: seq<Effect>, s: nat, j: nat)
    requires forall i, i' :: 0 <= i < i' < |effects| ==> Precedes(effects[i].decision, effects[i'].decision)
    ensures forall i, i' ::
              (&& 0 <= i < |effects| && 0 <= i' < |effects|
               && effects[i].decision.section == s && effects[i].decision.entry == j
               && effects[i'].decision.section == s && effects[i'].decision.entry == j) ==> i == i'
  {
  }

  /** When every fetch meets an outcome that ends its retries and every
      update has three observations, the run finishes. */
  lemma ObservedWorldFinishes(pathname: string, sections: seq<Section>, world: (nat, nat) -> World)
    requires forall s: nat, j: nat :: |world(s, j).editor| >= UpdateAttempts && Settles(world(s, j).provider)
    ensures Run(pathname, sections, world).finished
  {
    var kind := KindOf(pathname);
    var plan := Plan(sections, kind);
    var r := Run(pathname, sections, world);
    if !r.finished {
      ActingDecided(sections, kind, plan);
      PerformCompletes(sections, kind, world, Acting(plan)[|r.effects|]);
    }
  }

  /** A list with no Planning section whose identified entries all show a
      score is left alone: nothing is fetched or written, however the
      network and the editor behave. */
  lemma ScoredListIsLeftAlone(pathname: string, sections: seq<Section>, world: (nat, nat) -> World)
    requires forall s :: 0 <= s < |sections| ==> !IsPlanning(sections[s].name)
    requires forall s, j ::
               (&& 0 <= s < |sections| && 0 <= j < |sections[s].entries|
                && Locate(sections[s].entries[j].titleLinks, KindOf(pathname)).Found?) ==> ShowsScore(sections[s].entries[j])
    ensures Run(pathname, sections, world) == RunResult([], true)
  {
    var kind := KindOf(pathname);
    var plan := Plan(sections, kind);
    forall k | 0 <= k < |plan| ensures plan[k].action.Skip? {
      var d := plan[k];
      DecideSpec(sections[d.section].name, sections[d.section].entries[d.entry], kind);
    }
    ActingAllSkipped(plan);
  }

  /** A plan that skips everything acts on nothing. */
  lemma {:induction false} ActingAllSkipped(plan: seq<Decision>)
    requires forall k :: 0 <= k < |plan| ==> plan[k].action.Skip?
    ensures Acting(plan) == []
  {
    if plan != [] {
      assert forall k :: 0 <= k < |plan[1..]| ==> plan[1..][k] == plan[k + 1];
      ActingAllSkipped(plan[1..]);
    }
  }
}
