/**
 Keys of the visited set. The game keeps one JavaScript Set of strings that
 holds both scene ids ("scene2") and transition keys ("scene2→scene1"). The
 model keeps a set of tagged keys instead, and this module shows that the two
 agree whenever no scene id contains the arrow character.
 */
module Keys {

  /** The separator of a transition key: U+2192 RIGHTWARDS ARROW. */
  const Arrow: char := '\U{2192}'

  datatype Key =
    | Scene(id: string)             // the scene has been entered
    | Edge(from: string, to: string) // this exact from→to transition has been taken

  /** A scene id the string encoding cannot confuse with a transition key. */
  predicate ArrowFree(id: string) {
    Arrow !in id
  }

  predicate WellFormed(k: Key) {
    match k
    case Scene(id) => ArrowFree(id)
    case Edge(from, to) => ArrowFree(from) && ArrowFree(to)
  }

  /** The string the game stores for a key. */
  function KeyString(k: Key): (r: string)
    ensures WellFormed(k) ==> (k.Edge? <==> Arrow in r)
    ensures k.Edge? ==> |r| == |k.from| + 1 + |k.to| && r[|k.from|] == Arrow
  {
    match k
    case Scene(id) => id
    case Edge(from, to) =>
      var r := from + [Arrow] + to;
      assert r[|from|] == Arrow;
      r
  }

  /** On well-formed keys the string encoding loses nothing: two keys with
      the same string are the same key. */
  lemma KeyStringInjective(k1: Key, k2: Key)
    requires WellFormed(k1) && WellFormed(k2)
    requires KeyString(k1) == KeyString(k2)
    ensures k1 == k2
  {
    var s := KeyString(k1);
    if k1.Edge? && k2.Edge? {
      var f1, t1, f2, t2 := k1.from, k1.to, k2.from, k2.to;
      assert |f1| == |f2|;
      assert f1 == s[..|f1|] == f2;
      assert t1 == s[|f1| + 1..] == t2;
    }
  }

  /** The set of strings the game holds for a set of keys. */
  function Encode(visited: set<Key>): set<string> {
    set k | k in visited :: KeyString(k)
  }

  predicate AllWellFormed(visited: set<Key>) {
    forall k :: k in visited ==> WellFormed(k)
  }

  /** Membership queries agree: the game's `visitedScenes.has(key)` answers
      the same as membership of the tagged key, in both directions. */
  lemma EncodeMembership(visited: set<Key>, k: Key)
    requires AllWellFormed(visited) && WellFormed(k)
    ensures k in visited <==> KeyString(k) in Encode(visited)
  {
    if KeyString(k) in Encode(visited) {
      var k' :| k' in visited && KeyString(k') == KeyString(k);
      KeyStringInjective(k, k');
    }
  }

  /** Adding the two keys of a transition to the tagged set is adding their
      two strings to the game's set; clearing one clears the other. */
  lemma EncodeAdd(visited: set<Key>, from: string, to: string)
    ensures Encode(visited + {Scene(to), Edge(from, to)})
         == Encode(visited) + {to, from + [Arrow] + to}
    ensures Encode({}) == {}
  {
  }
}
