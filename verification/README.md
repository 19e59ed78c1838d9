# AIR Dungeon Crawler: scene-transition and stat engine

This is a Dafny model of the game engine inside the browser game's UI manager. It covers:

- the stat store (`HPPointsManager`): hp is clamped to [0, 100]; points are clamped below at 0 and have no upper bound;
- the visited set. It holds two kinds of key: destination scenes and exact `from→to` transitions. Rewards are paid once per destination scene. Penalties are charged once per edge;
- the choice handler. It is a fixed table from action id to a transition, an hp hit, a plain scene switch, a junction step, a restart or a share;
- the junction at truescene/falsescene. It is keyed on the scene the junction was entered from (`previousScene`);
- the `hpEffect` a scene applies every time it is rendered;
- the `{POINTS}` substitution in dialog questions.

Modules:

- `Stats` (stats.dfy): the stat store, with clamping characterised as "nearest point of the range".
- `Keys` (keys.dfy): the tagged key `Scene(id) | Edge(from, to)`. It proves that the game's string keys (`"from→to"`) encode it injectively when no id contains the arrow.
- `Scenes` (scenes.dfy): the registry is a map from scene id to `hpEffect`. `Authored` pins the scene files that are known: scene4 is -50, scene5 is +50, and the other shown scenes have no effect. The entry effects of scene4_1, scene7, scene9_1, falsescene and win are free parameters, because those configuration files are not part of this model.
- `Engine` (engine.dfy): the state record `Game(stats, visited, current, previous)`, plus `Render`, `Account`, `TransitionToScene` and `ResetGame`.
- `Actions` (actions.dfy): the action table `Lookup`, the junction dispatch, `HandleChoice` and `Run`.
- `Properties` (properties.dfy): lemmas over one or several choices.
- `Placeholder` (placeholder.dfy): decimal printing and first-occurrence replacement.

The model follows the code in these points:

- `handleChoice` never looks at the current scene. Every known action works from any scene.
- `resetGame` clears stats and the visited set, but keeps `currentScene` and `previousScene`. The start screen is shown without `renderScene`. A replay after restart reproduces the same stats and visited set whenever the choices enter the true/false junction before they leave it, which every playthrough through the dialog buttons does (`Properties.ReplayAfterRestartEnteringFirst`). It also does so for any choices when the kept origin is the same (`Properties.ReplayAfterRestart`). A sequence that leaves the junction first can replay differently (`Properties.ReplayDependsOnOrigin`).
- A missing scene is only logged by `renderScene`. The accounting in `transitionToScene` has already happened by then.
- The `hpEffect` is tested for truthiness, so an effect of 0 is the same as no effect. The start screen returns before its dialog, so it never applies an entry effect.

## Model

| member | source | states |
|---|---|---|
| Stats.Clamp | hp_points.js:39 | The result lies in [lo, hi], equals v when v is already in range, and no point of the range is nearer to v. |
| Stats.AtLeastZero | hp_points.js:48 | The result is non-negative, equals v when v is non-negative, and no non-negative integer is nearer to v. |
| Stats.New | hp_points.js:6-11 | A new store holds hp 100 and points 0, satisfies the stat invariant and is alive. |
| Stats.SetHP | hp_points.js:38-42 | The stored hp is in [0, 100]. A value already in range is stored exactly. Values below or above the range store 0 or 100. Points are unchanged. |
| Stats.SetPoints | hp_points.js:47-51 | The stored points are non-negative and equal the value when it is non-negative (0 otherwise), with no upper bound. Hp is unchanged. |
| Stats.AddPoints | hp_points.js:56-60 | After adding, points are non-negative and equal points+amount when that sum is non-negative (0 otherwise). Hp is unchanged. |
| Stats.AddHP | hp_points.js:65-69 | After adding, hp is in [0, 100] and equals hp+amount when that sum is in range (0 or 100 otherwise). Points are unchanged. |
| Stats.Reset | hp_points.js:74-79 | Reset gives hp 100 and points 0 from any state. |
| Stats.IsAlive | hp_points.js:162-164 | For any valid store, isAlive holds exactly when hp is off the floor of 0. |
| Stats.ClampUnique | hp_points.js:39 | Any in-range value that is nearest to v is the clamp, so the nearest-point contract fully determines the clamp. |
| Stats.AddHPIsSetHP | hp_points.js:38-69 | addHP(a) is setHP(hp+a) and addPoints(a) is setPoints(points+a). Setting the same value twice equals setting it once. |
| Stats.ResetRestoresDefaults | hp_points.js:74-79 | Reset restores 100/0 from any state and is idempotent. |
| Stats.AliveIffPositive | hp_points.js:162-164 | isAlive holds iff hp > 0. A new store is alive. An hp hit of 100 or more is fatal from any valid state. |
| Stats.AddHPAllInRange | hp_points.js:65-69 | Every sequence of addHP calls from a valid state keeps hp in [0, 100] and leaves points alone. |
| Stats.AddPointsAllNonNegative | hp_points.js:56-60 | Every sequence of addPoints calls from a valid state keeps points non-negative and leaves hp alone. |
| Stats.AddPointsAllExact | hp_points.js:56-60 | If no running sum of the deltas goes negative, the deltas are applied exactly: the result is the start plus the total. |
| Stats.PenaltyFloorsAtZero | hp_points.js:56-60 | The scene6 "no" penalty of -250 from 100 points floors at 0 points and leaves hp alone. |
| Keys.KeyString | script.js:1693 | The encoding of a well-formed key contains the arrow iff the key is an edge. For an edge the arrow sits right after the origin id. |
| Keys.KeyStringInjective | script.js:1693 | Two arrow-free keys with the same string are the same key. |
| Keys.EncodeMembership | script.js:1698-1703 | For arrow-free keys, the game's string-set lookup `has` agrees with tagged-key membership in both directions. |
| Keys.EncodeAdd | script.js:1709-1711 | Adding the two tagged keys of a transition corresponds to adding the scene string and the `from→to` string. The empty set encodes as empty. |
| Scenes.EntryEffect | script.js:1251-1255 | A missing scene has no entry effect. In the authored registry scene4 costs 50 HP, scene5 gives 50 HP, and the other shown scenes have none. |
| Scenes.SceneIdsArrowFree | scenes/index.js:24-45 | No registered scene id contains the transition-key arrow. |
| Engine.Init | script.js:18-20 | A new engine has hp 100, points 0, an empty visited set, and no current or previous scene. |
| Engine.Render | script.js:954-975 | An unknown id changes nothing. A known id becomes current. Its entry effect goes through addHP on every render, whatever was visited. The start screen applies none. Points, visited and previous are untouched. |
| Engine.Account | script.js:1689-1711 | Exactly the destination and the edge are added to the visited set. A zero delta changes no stat. A reward is paid iff the destination is new. A penalty is charged iff the edge is new. Hp is untouched. |
| Engine.TransitionToScene | script.js:1689-1713 | After a transition both keys are visited, the set gains exactly those keys, the destination is current if it exists, and the stat invariant is preserved. |
| Engine.ResetGame | script.js:2152-2166 | Restart gives default stats and an empty visited set. It keeps the current scene and the junction origin. |
| Engine.AccountMatchesStrings | script.js:1693-1711 | For arrow-free ids, the tagged-key accounting agrees with `Engine.AccountOnStrings`, a direct transliteration of the code on a set of strings, on the points charged and on the stored strings. |
| Actions.Lookup | script.js:1721-1826 | An action has an entry iff it is one of the 28 handled ids. The junction entries, the two junction exits, the five scene-only actions and restart are exactly the ids listed. Junction origins are scene11 or scene12. |
| Actions.LookupTargetsRegistered | script.js:1721-1826 | Every scene an action names is one of the twenty ids of the scene index: each source, destination and junction origin, the junction itself, and both scenes leaving the junction can lead to. |
| Actions.RegisteredWellFormed | scenes/index.js:24-45 | A command that names only registered scenes names only arrow-free ones, so its transition keys never collide. |
| Actions.JunctionExit | script.js:1787-1798 | Leaving the junction goes to scene12 iff it was entered from scene11, and to exitscene iff it was entered from scene12. Otherwise it goes nowhere. |
| Actions.Apply | script.js:1718-1826 | Each command preserves the stat invariant and arrow-freedom of keys. Only restart shrinks the visited set. Only junction entries set the origin, and they set it to their own origin. |
| Actions.HandleChoice | script.js:1718-1827 | An unknown action changes nothing. Restart resets stats and the visited set but keeps the scene and origin. Scene-only actions keep points and visited. The origin changes only through the four junction entries. |
| Properties.RewardOncePerDestination | script.js:1702-1706 | A reward is paid on the first arrival at a scene and never on a later arrival, whatever the edge. |
| Properties.PenaltyOncePerEdge | script.js:1696-1701 | Repeating a penalised edge charges nothing. A different unvisited edge into the same scene is charged again. |
| Properties.TrueSceneRewardOnce | script.js:1777-1802 | scene11→truescene, then leaving to scene12, then scene12→truescene pays +200 once in total. |
| Properties.FalseScenePenaltyPerEdge | script.js:1781-1806 | From any valid state, scene11→falsescene and later scene12→falsescene each charge -200, each floored at 0. From 400 points or more that is exactly -400. |
| Properties.BackAndForthScenario | script.js:1721-1732 | From a new game, go_forward, go_back_scene2, go_forward, go_back_scene2 ends on scene1 with 50 points and 100 hp. |
| Properties.ChoiceMovesPlayer | script.js:955-962 | With the authored registry, every move, hit-then-move, junction entry and scene-only action makes its destination the current scene. Leaving the junction makes current the scene its origin selects, and without an origin the scene stays. Restart and share keep the current scene. |
| Properties.ShowOnlyActionsSwitchScene | script.js:1724-1812 | go_back, gameover_scene4_1, ok_scene7, gameover_scene9_1 and exitGame keep points, visited and origin and make their scene current. The game-over ones change nothing else. |
| Properties.Scene9HitIgnoresVisited | script.js:1763-1770 | The hp after attack_scene9 or pass_scene9 depends only on the stats before, never on what was visited. |
| Properties.Scene9Hits | script.js:1763-1770 | pass_scene9 costs 30 hp, clamped. attack_scene9 drops hp to 0 before scene9_1's effect, so a non-positive effect there leaves the player dead. Each pays +100 iff its destination is new. |
| Properties.JunctionDispatch | script.js:1785-1798 | Leaving the junction never changes points or origin. It reaches scene12 from origin scene11 and exitscene from origin scene12. Any other origin leaves the state unchanged. |
| Properties.JunctionEntryRecordsOrigin | script.js:1777-1806 | Each of the four junction entries records its own origin. |
| Properties.SnakeSceneEveryEntry | scenes/scene4.js:7 | Rendering scene4 costs 50 hp, clamped at 0, and rendering scene5 adds 50, clamped at 100, regardless of the visited set. |
| Properties.SnakeTwiceScenario | script.js:1733-1735 | From a new game, opening the chest gives 50 hp and 100 points. Opening it again gives 0 hp (not negative) and no second reward. |
| Properties.RestartResets | script.js:1813-1815 | restart gives 100/0 with an empty visited set and keeps everything else. It is idempotent. |
| Properties.RunPreservesInvariants | script.js:1718-1827 | Every sequence of choices from a valid state keeps hp in [0, 100], points non-negative, and visited keys arrow-free. |
| Properties.RunVisitedGrows | script.js:1709-1711 | Without restart, the visited set only grows over any sequence of choices. |
| Properties.RunKeepsPrevious | script.js:1777-1806 | Without a junction entry, the junction origin never changes. |
| Properties.RunIgnoresCurrent | script.js:938-952 | The current scene steers nothing. Two states differing only in it stay that way under any choices. |
| Properties.ReplayAfterRestart | script.js:2152-2157 | After restart, the same choices give the same stats and visited set, provided the kept junction origin is the same. |
| Properties.StepIgnoresOrigin | script.js:1718-1827 | Any choice other than leaving the junction gives the same stats and visited set from two states that agree on those. After a junction entry the two states also agree on the origin. |
| Properties.RunAgreesUntilJunction | script.js:1777-1806 | From two states with the same stats and visited set, choices that enter the junction before leaving it end with the same stats and visited set, whatever the origins and current scenes. |
| Properties.ReplayAfterRestartEnteringFirst | script.js:2152-2157 | After restart, any choices that enter the junction before leaving it give the same stats and visited set, whatever preceded the restart. |
| Properties.ReplayDependsOnOrigin | script.js:1785-1791 | Because restart keeps the origin, leaving the junction first after a restart depends on the previous playthrough. |
| Placeholder.Decimal | script.js:1447 | The printed points are non-empty decimal digits with no leading zero and denote exactly the number. |
| Placeholder.FindFrom | script.js:1445 | The position found is an occurrence with none before it. No position is found only when there is no occurrence. |
| Placeholder.ReplaceFirst | script.js:1445-1448 | With no occurrence the text is unchanged. Otherwise exactly the first occurrence is replaced. |
| Placeholder.SubstitutePoints | script.js:1445-1448 | A question without the {POINTS} tag is unchanged. Otherwise its first tag is replaced by the decimal points and the rest of the text is kept. |
| Placeholder.GameOverQuestion | scenes/gameOver.js:9 | The game-over question reads "High Score: " followed by the points, e.g. "High Score: 50". |
| Placeholder.SubstituteAtStart | script.js:1445-1448 | A question that starts with the tag shows the decimal points followed by the rest of the question. |
| Placeholder.OnlyFirstReplaced | script.js:1447 | Only the first of two placeholders is filled. |
| Placeholder.DecimalInjective | script.js:1447 | Different scores never print the same. |

## Left out

- DOM building, CSS, dialog layout and hover effects: presentation only.
- Fades, timers and the counting animation (`smoothTransitionToScene`, `animateNumberChange`): a transition and the render it schedules are one synchronous step.
- Window scaling and aspect-ratio adjustment, window and panel dragging, audio and video, the taskbar, notifications and random system warnings: viewport floats, media and randomness.
- The `tweet` action: it takes a screenshot and opens an external window. It is modelled as a step that changes no engine state.
- The developer scene buttons: they are debug-only and call `showGameScene` directly, as `Render` does.
- Dynamic import of the scene index and the inline fallback scene table: module loading.
- The start-screen video and play button. The play button's `showGameScene('scene1')` is `Render` with scene1.
- Scene configuration files for scene4_1, scene7, scene9_1, falsescene and win are not part of this model. Their entry effects are parameters of the registry.
- Stats: hp and points are unbounded integers. JavaScript numbers are doubles, and NaN, fractions and the loss of precision above 2^53 are not modelled. The game only ever passes small integer deltas.
- Placeholder.Decimal: does not model JavaScript's exponent notation for numbers of 10^21 and above, which points never reach in the authored game.
- Placeholder.SubstitutePoints: the game checks `includes` before `replace`. The model replaces directly, which gives the same text because replacing an absent pattern changes nothing.
- Dialog questions given as arrays of lines never receive the substitution. They are rendering only.
- `isAlive` is never consulted by the game, so no "hp 0 means game over" transition exists in the model.
