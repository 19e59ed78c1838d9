/**
 The scene-transition engine of WindowsUIManager (script.js): the player's
 stats, the visited set, the current scene and the junction origin, with the
 three state-changing steps the choice handler is built from: rendering a
 scene, taking a transition with its one-time point accounting, and resetting
 the game. Fades and timers are collapsed: a transition and the render it
 schedules form one synchronous step.
 */
module Engine {
  import opened Stats
  import opened Keys
  import opened Scenes

  datatype Option<T> = None | Some(value: T)

  /** The engine's state. `current` starts as null and `previous` as
      undefined in the game; both are None here. */
  datatype Game = Game(
    stats: Stats,
    visited: set<Key>,
    current: Option<string>,
    previous: Option<string>)

  /** The state a freshly constructed manager holds. */
  function Init(): (g: Game)
    ensures g.stats.hp == 100 && g.stats.points == 0
    ensures Valid(g.stats)
    ensures g.visited == {} && g.current.None? && g.previous.None?
  {
    Game(New(), {}, None, None)
  }

  /** renderScene followed by the hpEffect step of showCustomDialog. A
      missing scene is only logged. A found scene becomes current; the start
      screen returns before any dialog and so before any entry effect; every
      other scene applies its entry effect through addHP on every render,
      whatever has been visited before. */
  function Render(reg: Registry, g: Game, id: string): (r: Game)
    ensures id !in reg ==> r == g
    ensures id in reg ==> r.current == Some(id)
    ensures r.visited == g.visited && r.previous == g.previous
    ensures r.stats.points == g.stats.points
    ensures id in reg && id != StartScreen && reg[id] != 0 ==> r.stats == AddHP(g.stats, reg[id])
    ensures id == StartScreen || EntryEffect(reg, id) == 0 ==> r.stats == g.stats
    ensures Valid(g.stats) ==> Valid(r.stats)
  {
    if id !in reg then g
    else
      var shown := g.(current := Some(id));
      if id == StartScreen || EntryEffect(reg, id) == 0 then shown
      else shown.(stats := AddHP(shown.stats, EntryEffect(reg, id)))
  }

  /** The point accounting and visited bookkeeping of transitionToScene. A
      non-zero reward is paid only on the first entry into the destination;
      a non-zero penalty is charged only the first time this exact edge is
      taken; afterwards both the destination and the edge are visited. */
  function Account(g: Game, from: string, to: string, delta: int, isPenalty: bool): (r: Game)
    ensures r.visited == g.visited + {Scene(to), Edge(from, to)}
    ensures r.stats.hp == g.stats.hp
    ensures r.current == g.current && r.previous == g.previous
    ensures delta == 0 ==> r.stats == g.stats
    ensures !isPenalty && Scene(to) in g.visited ==> r.stats == g.stats
    ensures isPenalty && Edge(from, to) in g.visited ==> r.stats == g.stats
    ensures delta != 0 && !isPenalty && Scene(to) !in g.visited ==> r.stats == AddPoints(g.stats, delta)
    ensures delta != 0 && isPenalty && Edge(from, to) !in g.visited ==> r.stats == AddPoints(g.stats, delta)
    ensures Valid(g.stats) ==> Valid(r.stats)
  {
    var charged :=
      if delta == 0 then false
      else if isPenalty then Edge(from, to) !in g.visited
      else Scene(to) !in g.visited;
    var stats := if charged then AddPoints(g.stats, delta) else g.stats;
    g.(stats := stats, visited := g.visited + {Scene(to), Edge(from, to)})
  }

  /** transitionToScene: the accounting, then showGameScene(to). */
  function TransitionToScene(reg: Registry, g: Game, from: string, to: string, delta: int, isPenalty: bool): (r: Game)
    ensures Scene(to) in r.visited && Edge(from, to) in r.visited
    ensures r.visited == g.visited + {Scene(to), Edge(from, to)}
    ensures r.previous == g.previous
    ensures r.current == (if to in reg then Some(to) else g.current)
    ensures delta == 0 ==> r.stats.points == g.stats.points
    ensures Valid(g.stats) ==> Valid(r.stats)
  {
    Render(reg, Account(g, from, to, delta, isPenalty), to)
  }

  /** resetGame: the stat store's reset and a cleared visited set. The game
      then shows the start screen without rendering it as a scene, so the
      current scene is kept, and the junction origin is not cleared either. */
  function ResetGame(g: Game): (r: Game)
    ensures r.stats == New() && r.visited == {}
    ensures r.current == g.current && r.previous == g.previous
  {
    g.(stats := Reset(g.stats), visited := {})
  }

  /** The visited set as the game stores it, one string per key. */
  function VisitedStrings(g: Game): set<string> {
    Encode(g.visited)
  }

  /** transitionToScene written directly over the game's string set, with
      the transition key built by concatenation around the arrow. */
  function AccountOnStrings(s: Stats, seen: set<string>, from: string, to: string, delta: int, isPenalty: bool): (Stats, set<string>) {
    var transitionKey := from + [Arrow] + to;
    var stats :=
      if delta != 0 then
        if isPenalty then
          if transitionKey !in seen then AddPoints(s, delta) else s
        else
          if to !in seen then AddPoints(s, delta) else s
      else s;
    (stats, seen + {to} + {transitionKey})
  }

  /** The tagged-key model and the string-set code agree on every
      transition between arrow-free scene ids: the same points are charged
      and the same strings end up in the set. */
  lemma AccountMatchesStrings(g: Game, from: string, to: string, delta: int, isPenalty: bool)
    requires AllWellFormed(g.visited) && ArrowFree(from) && ArrowFree(to)
    ensures AllWellFormed(Account(g, from, to, delta, isPenalty).visited)
    ensures AccountOnStrings(g.stats, VisitedStrings(g), from, to, delta, isPenalty)
         == (Account(g, from, to, delta, isPenalty).stats,
             VisitedStrings(Account(g, from, to, delta, isPenalty)))
  {
    var r := Account(g, from, to, delta, isPenalty);
    EncodeMembership(g.visited, Scene(to));
    EncodeMembership(g.visited, Edge(from, to));
    EncodeAdd(g.visited, from, to);
    assert KeyString(Scene(to)) == to;
    assert KeyString(Edge(from, to)) == from + [Arrow] + to;
    var (stats, seen) := AccountOnStrings(g.stats, VisitedStrings(g), from, to, delta, isPenalty);
    assert seen == Encode(g.visited) + {to, from + [Arrow] + to};
    assert stats == r.stats;
  }
}
