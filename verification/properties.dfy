/**
 Properties of the engine across one or several choices: one-time rewards
 and penalties, the scene-only actions, the scene9 hits, the junction, entry
 effects, restart, and invariants of whole playthroughs.
 */
module Properties {
  import opened Stats
  import opened Keys
  import opened Scenes
  import opened Engine
  import opened Actions

  // ---------------------------------------------------------------------
  // One-time rewards (keyed by destination) and penalties (keyed by edge)
  // ---------------------------------------------------------------------

  /** A reward is paid on the first arrival at a scene and never again,
      whichever edge the later arrivals take. */
  lemma RewardOncePerDestination(reg: Registry, g: Game, from1: string, from2: string, to: string, d1: int, d2: int)
    requires Valid(g.stats)
    ensures var g1 := TransitionToScene(reg, g, from1, to, d1, false);
      && (Scene(to) !in g.visited ==> g1.stats.points == AtLeastZero(g.stats.points + d1))
      && (Scene(to) in g.visited ==> g1.stats.points == g.stats.points)
      && TransitionToScene(reg, g1, from2, to, d2, false).stats.points == g1.stats.points
  {
  }

  /** A penalty is charged the first time an edge is taken and never again
      on that edge; a different edge into the same scene is charged anew. */
  lemma PenaltyOncePerEdge(reg: Registry, g: Game, from: string, other: string, to: string, d: int)
    requires Valid(g.stats)
    requires other != from && Edge(other, to) !in g.visited
    ensures var g1 := TransitionToScene(reg, g, from, to, d, true);
      && TransitionToScene(reg, g1, from, to, d, true).stats.points == g1.stats.points
      && TransitionToScene(reg, g1, other, to, d, true).stats.points == AtLeastZero(g1.stats.points + d)
  {
  }

  /** Reaching truescene from scene12 after reaching it from scene11 pays
      nothing: the +200 is keyed on the scene. */
  lemma TrueSceneRewardOnce(reg: Registry, g: Game)
    requires Valid(g.stats) && Scene("truescene") !in g.visited
    ensures Run(reg, g, ["goToTrueScene", "goToScene12FromTrue", "goToTrueSceneFromScene12"]).stats.points
         == g.stats.points + 200
  {
  }

  /** Reaching falsescene from scene12 after reaching it from scene11 costs
      the -200 penalty again: the penalty is keyed on the edge, and each
      charge floors at zero. */
  lemma FalseScenePenaltyPerEdge(reg: Registry, g: Game)
    requires Valid(g.stats)
    requires Edge("scene11", "falsescene") !in g.visited
    requires Edge("scene12", "falsescene") !in g.visited
    ensures Run(reg, g, ["goToFalseScene", "goToScene12FromFalse", "goToFalseSceneFromScene12"]).stats.points
         == AtLeastZero(AtLeastZero(g.stats.points - 200) - 200)
    ensures g.stats.points >= 400 ==>
      Run(reg, g, ["goToFalseScene", "goToScene12FromFalse", "goToFalseSceneFromScene12"]).stats.points
      == g.stats.points - 400
  {
  }

  /** From a new game: forward, back, forward, back ends on 50 points. The
      second back edge is already visited, so -50 is charged once. */
  lemma BackAndForthScenario(reg: Registry)
    requires Authored(reg)
    ensures var r := Run(reg, Init(), ["go_forward", "go_back_scene2", "go_forward", "go_back_scene2"]);
      r.stats.points == 50 && r.stats.hp == 100 && r.current == Some("scene1")
  {
  }

  // ---------------------------------------------------------------------
  // Actions that only switch scene
  // ---------------------------------------------------------------------

  /** The scene a scene-only action shows. */
  function ShownScene(action: string): string {
    if action == "exitGame" then "win" else "gameOver"
  }

  /** The five scene-only actions touch neither points nor the visited set
      nor the junction origin; they make their scene current, and the game
      over scene has no entry effect, so its actions leave hp alone too. */
  lemma ShowOnlyActionsSwitchScene(reg: Registry, g: Game, action: string)
    requires Authored(reg) && action in ShowOnly
    ensures var r := HandleChoice(reg, g, action);
      && r.stats.points == g.stats.points
      && r.visited == g.visited
      && r.previous == g.previous
      && r.current == Some(ShownScene(action))
      && (EntryEffect(reg, ShownScene(action)) == 0 ==> r.stats == g.stats)
      && (action != "exitGame" ==> r == g.(current := Some("gameOver")))
  {
  }

  /** With the authored registry every choice reaches the scene the table
      names for it: a fixed destination becomes current, leaving the
      junction goes where its origin says (and nowhere without an origin),
      and restart and share leave the current scene alone. */
  lemma ChoiceMovesPlayer(reg: Registry, g: Game, action: string)
    requires Authored(reg) && Lookup(action).Some?
    ensures Target(Lookup(action).value).Some? ==>
      HandleChoice(reg, g, action).current == Target(Lookup(action).value)
    ensures Lookup(action).value.Leave? ==>
      HandleChoice(reg, g, action).current
      == (if JunctionExit(g.previous).Some? then JunctionExit(g.previous) else g.current)
    ensures Target(Lookup(action).value).None? && !Lookup(action).value.Leave? ==>
      HandleChoice(reg, g, action).current == g.current
  {
  }

  // ---------------------------------------------------------------------
  // scene9: hp hits on every choice
  // ---------------------------------------------------------------------

  /** attack_scene9 and pass_scene9 cost hp on every choice: the hp after the
      choice depends only on the stats before it, never on what has been
      visited. */
  lemma Scene9HitIgnoresVisited(reg: Registry, g1: Game, g2: Game, action: string)
    requires action in {"attack_scene9", "pass_scene9"}
    requires g1.stats == g2.stats
    ensures HandleChoice(reg, g1, action).stats.hp == HandleChoice(reg, g2, action).stats.hp
  {
  }

  /** pass_scene9 costs 30 hp (scene10 has no entry effect of its own);
      attack_scene9 brings hp to 0 before scene9_1's entry effect, so with a
      non-positive effect there the player is dead. Each also pays +100
      points exactly when its destination is new. */
  lemma Scene9Hits(reg: Registry, g: Game)
    requires Authored(reg) && Valid(g.stats)
    ensures var r := HandleChoice(reg, g, "pass_scene9");
      && r.stats.hp == AtLeastZero(g.stats.hp - 30)
      && r.stats.points == (if Scene("scene10") in g.visited then g.stats.points else g.stats.points + 100)
    ensures var r := HandleChoice(reg, g, "attack_scene9");
      && r.stats.hp == Clamp(reg["scene9_1"], MinHP, MaxHP)
      && (reg["scene9_1"] <= 0 ==> !IsAlive(r.stats))
      && r.stats.points == (if Scene("scene9_1") in g.visited then g.stats.points else g.stats.points + 100)
  {
  }

  // ---------------------------------------------------------------------
  // The true/false junction
  // ---------------------------------------------------------------------

  /** Leaving truescene or falsescene goes to scene12 when the junction was
      entered from scene11, to exitscene when it was entered from scene12,
      and does nothing otherwise; it never pays or charges points. */
  lemma JunctionDispatch(reg: Registry, g: Game, action: string)
    requires Authored(reg)
    requires action in {"goToScene12FromTrue", "goToScene12FromFalse"}
    ensures var r := HandleChoice(reg, g, action);
      && r.stats.points == g.stats.points
      && r.previous == g.previous
      && (g.previous == Some("scene11") ==> r.current == Some("scene12"))
      && (g.previous == Some("scene12") ==> r.current == Some("exitscene"))
      && (g.previous !in {Some("scene11"), Some("scene12")} ==> r == g)
  {
  }

  /** Each junction entry records its origin before the transition. */
  lemma JunctionEntryRecordsOrigin(reg: Registry, g: Game)
    ensures HandleChoice(reg, g, "goToTrueScene").previous == Some("scene11")
    ensures HandleChoice(reg, g, "goToFalseScene").previous == Some("scene11")
    ensures HandleChoice(reg, g, "goToTrueSceneFromScene12").previous == Some("scene12")
    ensures HandleChoice(reg, g, "goToFalseSceneFromScene12").previous == Some("scene12")
  {
  }

  // ---------------------------------------------------------------------
  // Entry effects
  // ---------------------------------------------------------------------

  /** Entering the snake scene costs 50 hp on every render, whatever was
      visited before, clamped at 0. */
  lemma SnakeSceneEveryEntry(reg: Registry, g: Game)
    requires Authored(reg) && Valid(g.stats)
    ensures Render(reg, g, "scene4").stats.hp == AtLeastZero(g.stats.hp - 50)
    ensures Render(reg, g, "scene5").stats.hp == Clamp(g.stats.hp + 50, MinHP, MaxHP)
  {
  }

  /** From a new game, opening the chest twice: 100 hp, then 50, then 0,
      never negative; the +100 reward for scene4 is paid once. */
  lemma SnakeTwiceScenario(reg: Registry)
    requires Authored(reg)
    ensures Run(reg, Init(), ["go_forward_scene3"]).stats == Stats(50, 100)
    ensures Run(reg, Init(), ["go_forward_scene3", "go_forward_scene3"]).stats == Stats(0, 100)
  {
  }

  // ---------------------------------------------------------------------
  // Restart
  // ---------------------------------------------------------------------

  /** restart restores 100 hp and 0 points and empties the visited set,
      keeps the current scene and the junction origin, and is idempotent. */
  lemma RestartResets(reg: Registry, g: Game)
    ensures HandleChoice(reg, g, "restart") == g.(stats := Stats(100, 0), visited := {})
    ensures HandleChoice(reg, HandleChoice(reg, g, "restart"), "restart") == HandleChoice(reg, g, "restart")
  {
  }

  // ---------------------------------------------------------------------
  // Whole playthroughs
  // ---------------------------------------------------------------------

  /** Every playthrough from a valid state keeps hp in [0, 100], points
      non-negative, and every visited key free of the separator. */
  lemma {:induction false} RunPreservesInvariants(reg: Registry, g: Game, actions: seq<string>)
    requires Valid(g.stats) && AllWellFormed(g.visited)
    ensures Valid(Run(reg, g, actions).stats)
    ensures AllWellFormed(Run(reg, g, actions).visited)
    decreases |actions|
  {
    if |actions| > 0 {
      RunPreservesInvariants(reg, HandleChoice(reg, g, actions[0]), actions[1..]);
    }
  }

  /** Without a restart the visited set only grows. */
  lemma {:induction false} RunVisitedGrows(reg: Registry, g: Game, actions: seq<string>)
    requires forall i :: 0 <= i < |actions| ==> actions[i] != "restart"
    ensures g.visited <= Run(reg, g, actions).visited
    decreases |actions|
  {
    if |actions| > 0 {
      RunVisitedGrows(reg, HandleChoice(reg, g, actions[0]), actions[1..]);
    }
  }

  /** Without a junction entry the junction origin never changes. */
  lemma {:induction false} RunKeepsPrevious(reg: Registry, g: Game, actions: seq<string>)
    requires forall i :: 0 <= i < |actions| ==> actions[i] !in JunctionEntries
    ensures Run(reg, g, actions).previous == g.previous
    decreases |actions|
  {
    if |actions| > 0 {
      RunKeepsPrevious(reg, HandleChoice(reg, g, actions[0]), actions[1..]);
    }
  }

  /** Two states that differ at most in the current scene. */
  predicate SameButCurrent(g1: Game, g2: Game) {
    g1.stats == g2.stats && g1.visited == g2.visited && g1.previous == g2.previous
  }

  /** The current scene steers nothing: choices from two states that differ
      only there end in states that differ at most there. */
  lemma {:induction false} RunIgnoresCurrent(reg: Registry, g1: Game, g2: Game, actions: seq<string>)
    requires SameButCurrent(g1, g2)
    ensures SameButCurrent(Run(reg, g1, actions), Run(reg, g2, actions))
    decreases |actions|
  {
    if |actions| > 0 {
      var h1 := HandleChoice(reg, g1, actions[0]);
      var h2 := HandleChoice(reg, g2, actions[0]);
      assert SameButCurrent(h1, h2) by {
        assert g1 == g2.(current := g1.current);
      }
      RunIgnoresCurrent(reg, h1, h2, actions[1..]);
    }
  }

  /** After a restart the same choices give the same stats and visited set,
      provided the junction origin (which restart keeps) is the same. */
  lemma ReplayAfterRestart(reg: Registry, g1: Game, g2: Game, actions: seq<string>)
    requires g1.previous == g2.previous
    ensures var r1 := Run(reg, HandleChoice(reg, g1, "restart"), actions);
            var r2 := Run(reg, HandleChoice(reg, g2, "restart"), actions);
      r1.stats == r2.stats && r1.visited == r2.visited
  {
    RunIgnoresCurrent(reg, HandleChoice(reg, g1, "restart"), HandleChoice(reg, g2, "restart"), actions);
  }

  /** The choices enter the junction before they first leave it, as every
      playthrough through the dialog buttons does: the leaving buttons
      appear only on truescene and falsescene, which only the entries reach. */
  predicate EntersBeforeLeaving(actions: seq<string>)
    decreases |actions|
  {
    || |actions| == 0
    || actions[0] in JunctionEntries
    || (actions[0] !in JunctionExits && EntersBeforeLeaving(actions[1..]))
  }

  /** Outside the junction exits, a choice reads only the stats and the
      visited set: two states that agree on those agree on them after the
      choice, and after a junction entry they agree on the origin too. */
  lemma StepIgnoresOrigin(reg: Registry, g1: Game, g2: Game, action: string)
    requires g1.stats == g2.stats && g1.visited == g2.visited
    requires action !in JunctionExits
    ensures HandleChoice(reg, g1, action).stats == HandleChoice(reg, g2, action).stats
    ensures HandleChoice(reg, g1, action).visited == HandleChoice(reg, g2, action).visited
    ensures action in JunctionEntries ==> SameButCurrent(HandleChoice(reg, g1, action), HandleChoice(reg, g2, action))
  {
  }

  /** Before the junction is entered the origin steers nothing: from two
      states with the same stats and visited set, choices that enter the
      junction before leaving it end with the same stats and visited set,
      whatever the two origins and current scenes. */
  lemma {:induction false} RunAgreesUntilJunction(reg: Registry, g1: Game, g2: Game, actions: seq<string>)
    requires g1.stats == g2.stats && g1.visited == g2.visited
    requires EntersBeforeLeaving(actions)
    ensures Run(reg, g1, actions).stats == Run(reg, g2, actions).stats
    ensures Run(reg, g1, actions).visited == Run(reg, g2, actions).visited
    decreases |actions|
  {
    if |actions| > 0 {
      var h1 := HandleChoice(reg, g1, actions[0]);
      var h2 := HandleChoice(reg, g2, actions[0]);
      StepIgnoresOrigin(reg, g1, g2, actions[0]);
      if actions[0] in JunctionEntries {
        RunIgnoresCurrent(reg, h1, h2, actions[1..]);
      } else {
        RunAgreesUntilJunction(reg, h1, h2, actions[1..]);
      }
    }
  }

  /** After a restart, any choices that enter the junction before leaving it
      give the same stats and visited set, whatever preceded the restart. */
  lemma ReplayAfterRestartEnteringFirst(reg: Registry, g1: Game, g2: Game, actions: seq<string>)
    requires EntersBeforeLeaving(actions)
    ensures var r1 := Run(reg, HandleChoice(reg, g1, "restart"), actions);
            var r2 := Run(reg, HandleChoice(reg, g2, "restart"), actions);
      r1.stats == r2.stats && r1.visited == r2.visited
  {
    RunAgreesUntilJunction(reg, HandleChoice(reg, g1, "restart"), HandleChoice(reg, g2, "restart"), actions);
  }

  /** Because restart keeps the junction origin, a replay that leaves the
      junction before entering it depends on the earlier playthrough. */
  lemma ReplayDependsOnOrigin(reg: Registry)
    requires Authored(reg)
    ensures var g1 := Init().(previous := Some("scene11"));
            var r1 := Run(reg, HandleChoice(reg, g1, "restart"), ["goToScene12FromTrue"]);
            var r2 := Run(reg, HandleChoice(reg, Init(), "restart"), ["goToScene12FromTrue"]);
      r1.visited != r2.visited
  {
  }
}
