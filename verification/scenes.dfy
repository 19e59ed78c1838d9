/**
 The scene registry as the engine sees it: which scene ids exist and the
 hpEffect each one applies on entry. Narrative text, images and dialog styling
 are presentation and are not modelled.
 */
module Scenes {
  import opened Keys

  /** Scene id -> hpEffect. An id absent from the map is not a scene; an
      effect of 0 is the same as no hpEffect field (the game tests the field
      for truthiness). */
  type Registry = map<string, int>

  const StartScreen: string := "startScreen"

  /** The twenty ids of scenes/index.js. */
  const SceneIds: set<string> := {
    "startScreen", "scene1", "scene2", "scene3", "scene4", "scene4_1",
    "scene5", "scene6", "scene7", "scene8", "scene9", "scene9_1",
    "scene10", "scene11", "truescene", "falsescene", "scene12",
    "exitscene", "win", "gameOver"
  }

  /** Scenes whose configuration is known to carry no hpEffect. */
  const NoEffectIds: set<string> := {
    "startScreen", "scene1", "scene2", "scene3", "scene6", "scene8",
    "scene9", "scene10", "scene11", "truescene", "scene12", "exitscene",
    "gameOver"
  }

  /** The registry the game loads: every id of the index, the snake scene
      costs 50 HP, the potion scene restores 50 HP, the other known scenes
      have no entry effect. The effects of scene4_1, scene7, scene9_1,
      falsescene and win are left free. */
  predicate Authored(reg: Registry) {
    && reg.Keys == SceneIds
    && reg["scene4"] == -50
    && reg["scene5"] == 50
    && forall id :: id in NoEffectIds ==> reg[id] == 0
  }

  /** The effect the registry applies on entering a scene; 0 when there is
      none or the scene is missing. */
  function EntryEffect(reg: Registry, id: string): (e: int)
    ensures id !in reg ==> e == 0
    ensures Authored(reg) && id in NoEffectIds ==> e == 0
    ensures Authored(reg) && id == "scene4" ==> e == -50
    ensures Authored(reg) && id == "scene5" ==> e == 50
  {
    if id in reg then reg[id] else 0
  }

  /** No scene id contains the transition-key separator, so the game's
      string keys never collide. */
  lemma SceneIdsArrowFree(id: string)
    requires id in SceneIds
    ensures ArrowFree(id)
  {
  }

  /** Authored registries exist: one witness with every free effect at 0. */
  lemma AuthoredWitness()
    ensures Authored(map id | id in SceneIds :: if id == "scene4" then -50 else if id == "scene5" then 50 else 0)
  {
  }
}
