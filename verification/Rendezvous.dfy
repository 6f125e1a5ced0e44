/** Rendezvous hashing: the live worker with the highest hash, the lowest index on ties.
    The hash is an arbitrary function of the sequence key and the worker. */
module Rendezvous {
  type Hash = (string, nat) -> nat

  predicate Beats(h: Hash, key: string, a: nat, b: nat) {
    h(key, a) > h(key, b) || (h(key, a) == h(key, b) && a < b)
  }

  ghost predicate IsChoice(h: Hash, key: string, live: set<nat>, c: nat) {
    c in live && forall x | x in live && x != c :: Beats(h, key, c, x)
  }

  lemma ChoiceExists(h: Hash, key: string, live: set<nat>) returns (c: nat)
    requires live != {}
    ensures IsChoice(h, key, live, c)
  {
    var a :| a in live;
    if live == {a} {
      c := a;
    } else {
      assert live == (live - {a}) + {a};
      var b := ChoiceExists(h, key, live - {a});
      c := if Beats(h, key, a, b) then a else b;
      assert forall x | x in live :: x == a || x in live - {a};
    }
  }

  ghost function Choice(h: Hash, key: string, live: set<nat>): (c: nat)
    requires live != {}
    ensures c in live && forall x | x in live :: h(key, x) <= h(key, c) && (h(key, x) == h(key, c) ==> c <= x)
    ensures IsChoice(h, key, live, c)
    ensures forall d | IsChoice(h, key, live, d) :: d == c
  {
    assert exists c :: IsChoice(h, key, live, c) by {
      var w := ChoiceExists(h, key, live);
    }
    var c :| IsChoice(h, key, live, c);
    c
  }

  /** The choice over a union is one of the choices over its parts. */
  lemma ChoiceOfUnion(h: Hash, key: string, a: set<nat>, b: set<nat>)
    requires a != {} && b != {}
    ensures a + b != {} && Choice(h, key, a + b) in {Choice(h, key, a), Choice(h, key, b)}
  {
    var c := Choice(h, key, a + b);
    if c in a {
      assert IsChoice(h, key, a, c);
    } else {
      assert IsChoice(h, key, b, c);
    }
  }

  ghost predicate Moves(h: Hash, key: string, before: set<nat>, after: set<nat>)
    requires before != {} && after != {}
  {
    Choice(h, key, before) != Choice(h, key, after)
  }

  /** Taking workers away moves exactly the sequences they held. */
  lemma RemovalMovesOnlyOrphans(h: Hash, key: string, live: set<nat>, gone: set<nat>)
    requires live - gone != {}
    ensures live != {} && (Moves(h, key, live, live - gone) <==> Choice(h, key, live) in gone)
  {
    var c := Choice(h, key, live);
    if c !in gone {
      assert IsChoice(h, key, live - gone, c);
    }
  }

  /** Adding a worker moves a sequence only onto that worker. */
  lemma AdditionMovesOnlyOntoNew(h: Hash, key: string, live: set<nat>, w: nat)
    requires live != {}
    ensures live + {w} != {} && (Moves(h, key, live, live + {w}) ==> Choice(h, key, live + {w}) == w)
  {
    ChoiceOfUnion(h, key, live, {w});
    assert w in {w};
  }
}
