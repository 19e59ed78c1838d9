/**
 The choice handler (handleChoice in script.js): a fixed table from action id
 to what the action does, and the step that carries it out. The handler does
 not look at the current scene: every action id is honoured from any scene.
 */
module Actions {
  import opened Stats
  import opened Keys
  import opened Scenes
  import opened Engine

  /** What one action id does. */
  datatype Command =
    | Move(from: string, to: string, delta: int, isPenalty: bool)
      // transitionToScene(from, to, delta, isPenalty)
    | HitThenMove(hit: int, from: string, to: string, delta: int)
      // addHP(hit) first, then a rewarding transitionToScene
    | Enter(origin: string, to: string, delta: int, isPenalty: bool)
      // previousScene := origin, then transitionToScene(origin, to, ...)
    | Leave(junction: string)
      // leave truescene/falsescene according to previousScene
    | Show(to: string)
      // showGameScene(to): no accounting at all
    | Restart
      // resetGame
    | Share
      // tweet: screenshot and an external window, no engine state

  /** Action ids that enter the true/false junction and record its origin. */
  const JunctionEntries: set<string> := {
    "goToTrueScene", "goToFalseScene",
    "goToTrueSceneFromScene12", "goToFalseSceneFromScene12"
  }

  /** Action ids that leave the junction according to its recorded origin. */
  const JunctionExits: set<string> := {"goToScene12FromTrue", "goToScene12FromFalse"}

  /** Action ids that only switch scene, without accounting. */
  const ShowOnly: set<string> := {
    "go_back", "gameover_scene4_1", "ok_scene7", "gameover_scene9_1", "exitGame"
  }

  /** Every action id the handler recognises. */
  const KnownActions: set<string> := {
    "go_forward", "go_back", "go_forward_scene2", "go_back_scene2",
    "go_forward_scene3", "go_back_scene3", "go_forward_scene4",
    "go_back_scene4", "gameover_scene4_1", "take_and_go_scene5",
    "yes_scene6", "no_scene6", "ok_scene7", "take_it_scene8",
    "attack_scene9", "pass_scene9", "gameover_scene9_1", "ok_scene10",
    "goToTrueScene", "goToFalseScene", "goToScene12FromTrue",
    "goToScene12FromFalse", "goToTrueSceneFromScene12",
    "goToFalseSceneFromScene12", "goToSuccessfully", "exitGame",
    "restart", "tweet"
  }

  /** The action table, in the order of the handler's if-chain. */
  function Lookup(action: string): (c: Option<Command>)
    ensures c.Some? <==> action in KnownActions
    ensures c.Some? && c.value.Enter? <==> action in JunctionEntries
    ensures c.Some? && c.value.Show? <==> action in ShowOnly
    ensures c.Some? && c.value.Leave? <==> action in JunctionExits
    ensures c.Some? && c.value.Restart? <==> action == "restart"
    ensures c.Some? && c.value.Enter? ==> c.value.origin in {"scene11", "scene12"}
  {
    if action == "go_forward" then Some(Move("scene1", "scene2", 100, false))
    else if action == "go_back" then Some(Show("gameOver"))
    else if action == "go_forward_scene2" then Some(Move("scene2", "scene3", 100, false))
    else if action == "go_back_scene2" then Some(Move("scene2", "scene1", -50, true))
    else if action == "go_forward_scene3" then Some(Move("scene3", "scene4", 100, false))
    else if action == "go_back_scene3" then Some(Move("scene3", "scene2", -50, true))
    else if action == "go_forward_scene4" then Some(Move("scene4", "scene5", 100, false))
    else if action == "go_back_scene4" then Some(Move("scene4", "scene4_1", 100, false))
    else if action == "gameover_scene4_1" then Some(Show("gameOver"))
    else if action == "take_and_go_scene5" then Some(Move("scene5", "scene6", 100, false))
    else if action == "yes_scene6" then Some(Move("scene6", "scene8", 150, false))
    else if action == "no_scene6" then Some(Move("scene6", "scene7", -250, true))
    else if action == "ok_scene7" then Some(Show("gameOver"))
    else if action == "take_it_scene8" then Some(Move("scene8", "scene9", 150, false))
    else if action == "attack_scene9" then Some(HitThenMove(-100, "scene9", "scene9_1", 100))
    else if action == "pass_scene9" then Some(HitThenMove(-30, "scene9", "scene10", 100))
    else if action == "gameover_scene9_1" then Some(Show("gameOver"))
    else if action == "ok_scene10" then Some(Move("scene10", "scene11", 100, false))
    else if action == "goToTrueScene" then Some(Enter("scene11", "truescene", 200, false))
    else if action == "goToFalseScene" then Some(Enter("scene11", "falsescene", -200, true))
    else if action == "goToScene12FromTrue" then Some(Leave("truescene"))
    else if action == "goToScene12FromFalse" then Some(Leave("falsescene"))
    else if action == "goToTrueSceneFromScene12" then Some(Enter("scene12", "truescene", 200, false))
    else if action == "goToFalseSceneFromScene12" then Some(Enter("scene12", "falsescene", -200, true))
    else if action == "goToSuccessfully" then Some(Move("scene12", "win", 0, false))
    else if action == "exitGame" then Some(Show("win"))
    else if action == "restart" then Some(Restart)
    else if action == "tweet" then Some(Share)
    else None
  }

  /** Every scene a command names is an arrow-free id. */
  predicate CommandWellFormed(c: Command) {
    match c
    case Move(from, to, _, _) => ArrowFree(from) && ArrowFree(to)
    case HitThenMove(_, from, to, _) => ArrowFree(from) && ArrowFree(to)
    case Enter(origin, to, _, _) => ArrowFree(origin) && ArrowFree(to)
    case Leave(junction) => ArrowFree(junction)
    case _ => true
  }

  /** Every scene a command names is a registered scene id. */
  predicate CommandRegistered(c: Command) {
    match c
    case Move(from, to, _, _) => from in SceneIds && to in SceneIds
    case HitThenMove(_, from, to, _) => from in SceneIds && to in SceneIds
    case Enter(origin, to, _, _) => origin in SceneIds && to in SceneIds
    case Leave(junction) => junction in SceneIds
    case Show(to) => to in SceneIds
    case _ => true
  }

  /** The scene a command moves the player to, when the table fixes it;
      leaving the junction depends on its origin, and restart and share
      move nowhere. */
  function Target(c: Command): Option<string> {
    match c
    case Move(_, to, _, _) => Some(to)
    case HitThenMove(_, _, to, _) => Some(to)
    case Enter(_, to, _, _) => Some(to)
    case Show(to) => Some(to)
    case _ => None
  }

  /** No action of the table points at a scene the index lacks: every
      source and destination it names, and both scenes the junction can
      lead to, are registered. */
  lemma LookupTargetsRegistered(action: string)
    requires Lookup(action).Some?
    ensures CommandRegistered(Lookup(action).value)
    ensures forall p :: JunctionExit(p).Some? ==> JunctionExit(p).value in SceneIds
  {
  }

  /** Registered scenes are arrow-free, so so is every command naming them. */
  lemma RegisteredWellFormed(c: Command)
    requires CommandRegistered(c)
    ensures CommandWellFormed(c)
  {
    match c
    case Move(from, to, _, _) =>
      SceneIdsArrowFree(from);
      SceneIdsArrowFree(to);
    case HitThenMove(_, from, to, _) =>
      SceneIdsArrowFree(from);
      SceneIdsArrowFree(to);
    case Enter(origin, to, _, _) =>
      SceneIdsArrowFree(origin);
      SceneIdsArrowFree(to);
    case Leave(junction) =>
      SceneIdsArrowFree(junction);
    case _ =>
  }

  lemma LookupWellFormed(action: string)
    requires Lookup(action).Some?
    ensures CommandWellFormed(Lookup(action).value)
  {
    LookupTargetsRegistered(action);
    RegisteredWellFormed(Lookup(action).value);
  }

  /** The two-way junction: which scene leaving truescene or falsescene
      leads to, keyed on where the junction was entered from. */
  function JunctionExit(previous: Option<string>): (r: Option<string>)
    ensures previous == Some("scene11") <==> r == Some("scene12")
    ensures previous == Some("scene12") <==> r == Some("exitscene")
    ensures r.None? <==> previous !in {Some("scene11"), Some("scene12")}
  {
    if previous == Some("scene11") then Some("scene12")
    else if previous == Some("scene12") then Some("exitscene")
    else None
  }

  /** Carry out one command. */
  function Apply(reg: Registry, g: Game, c: Command): (r: Game)
    ensures Valid(g.stats) ==> Valid(r.stats)
    ensures !c.Restart? ==> g.visited <= r.visited
    ensures c.Enter? ==> r.previous == Some(c.origin)
    ensures !c.Enter? ==> r.previous == g.previous
    ensures AllWellFormed(g.visited) && CommandWellFormed(c) ==> AllWellFormed(r.visited)
  {
    match c
    case Move(from, to, delta, isPenalty) =>
      TransitionToScene(reg, g, from, to, delta, isPenalty)
    case HitThenMove(hit, from, to, delta) =>
      TransitionToScene(reg, g.(stats := AddHP(g.stats, hit)), from, to, delta, false)
    case Enter(origin, to, delta, isPenalty) =>
      TransitionToScene(reg, g.(previous := Some(origin)), origin, to, delta, isPenalty)
    case Leave(junction) =>
      (match JunctionExit(g.previous)
       case Some(next) => TransitionToScene(reg, g, junction, next, 0, false)
       case None => g)
    case Show(to) => Render(reg, g, to)
    case Restart => ResetGame(g)
    case Share => g
  }

  /** handleChoice: look the action up and carry it out; an id the table
      does not know changes nothing. */
  function HandleChoice(reg: Registry, g: Game, action: string): (r: Game)
    ensures action !in KnownActions ==> r == g
    ensures Valid(g.stats) ==> Valid(r.stats)
    ensures action != "restart" ==> g.visited <= r.visited
    ensures action == "restart" ==> r.stats == New() && r.visited == {}
    ensures action == "restart" ==> r.current == g.current && r.previous == g.previous
    ensures action in ShowOnly ==> r.visited == g.visited && r.stats.points == g.stats.points
    ensures r.previous != g.previous ==> action in JunctionEntries
    ensures action in JunctionEntries ==> r.previous.Some? && r.previous.value in {"scene11", "scene12"}
    ensures AllWellFormed(g.visited) ==> AllWellFormed(r.visited)
  {
    match Lookup(action)
    case None => g
    case Some(c) =>
      LookupWellFormed(action);
      Apply(reg, g, c)
  }

  /** A sequence of choices, applied in order. */
  function Run(reg: Registry, g: Game, actions: seq<string>): Game
    decreases |actions|
  {
    if |actions| == 0 then g else Run(reg, HandleChoice(reg, g, actions[0]), actions[1..])
  }
}
