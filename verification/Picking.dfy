/** Lists that are made from the chosen entries of another list, in its order. */
module Picking {

  /** Places in a list of the given length, in order. */
  predicate Places(at: seq<int>, length: nat) {
    && (forall i :: 0 <= i < |at| ==> 0 <= at[i] < length)
    && (forall i, j :: 0 <= i < j < |at| ==> at[i] < at[j])
  }

  /** At each place is a chosen entry, and this is what is made of it. */
  predicate Makes<A, B(==)>(at: seq<int>, picked: seq<B>, all: seq<A>, chosen: A -> bool, made: A -> B) {
    && |at| == |picked|
    && (forall i :: 0 <= i < |at| ==> 0 <= at[i] < |all| && chosen(all[at[i]]) && picked[i] == made(all[at[i]]))
  }

  /** No chosen entry is left out. */
  predicate NoneLeftOut<A>(at: seq<int>, all: seq<A>, chosen: A -> bool) {
    forall k :: 0 <= k < |all| && chosen(all[k]) ==> k in at
  }

  /** One entry for each chosen one, in order. */
  ghost predicate Picked<A, B>(picked: seq<B>, all: seq<A>, chosen: A -> bool, made: A -> B) {
    exists at: seq<int> ::
      Places(at, |all|) && Makes(at, picked, all, chosen, made) && NoneLeftOut(at, all, chosen)
  }

  lemma PickedNone<A, B>(chosen: A -> bool, made: A -> B)
    ensures Picked([], [], chosen, made)
  {
    assert Places([], 0) && Makes([], [], [], chosen, made) && NoneLeftOut([], [], chosen);
  }

  lemma MakesNext<A, B>(at: seq<int>, picked: seq<B>, all: seq<A>, x: A, chosen: A -> bool, made: A -> B)
    requires Makes(at, picked, all, chosen, made)
    ensures Makes(at, picked, all + [x], chosen, made)
    ensures chosen(x) ==> Makes(at + [|all|], picked + [made(x)], all + [x], chosen, made)
  {
    forall i | 0 <= i < |at| ensures (all + [x])[at[i]] == all[at[i]] {
    }
  }

  lemma LeftOutNext<A>(at: seq<int>, all: seq<A>, x: A, chosen: A -> bool)
    requires NoneLeftOut(at, all, chosen)
    ensures NoneLeftOut(if chosen(x) then at + [|all|] else at, all + [x], chosen)
  {
    var more, places := all + [x], if chosen(x) then at + [|all|] else at;
    forall k | 0 <= k < |more| && chosen(more[k]) ensures k in places {
      if k < |all| {
        assert more[k] == all[k] && k in at;
      } else {
        assert places[|at|] == k;
      }
    }
  }

  lemma PickedNext<A, B>(picked: seq<B>, all: seq<A>, x: A, chosen: A -> bool, made: A -> B)
    requires Picked(picked, all, chosen, made)
    ensures Picked(if chosen(x) then picked + [made(x)] else picked, all + [x], chosen, made)
  {
    var at: seq<int> :|
      Places(at, |all|) && Makes(at, picked, all, chosen, made) && NoneLeftOut(at, all, chosen);
    MakesNext(at, picked, all, x, chosen, made);
    LeftOutNext(at, all, x, chosen);
    assert Places(if chosen(x) then at + [|all|] else at, |all + [x]|);
    hide Places, Makes, NoneLeftOut;
  }

  lemma PickedMember<A, B>(picked: seq<B>, all: seq<A>, chosen: A -> bool, made: A -> B, b: B)
    requires Picked(picked, all, chosen, made)
    ensures b in picked <==> exists k :: 0 <= k < |all| && chosen(all[k]) && b == made(all[k])
  {
    var at: seq<int> :|
      Places(at, |all|) && Makes(at, picked, all, chosen, made) && NoneLeftOut(at, all, chosen);
    if k :| 0 <= k < |all| && chosen(all[k]) && b == made(all[k]) {
      var i :| 0 <= i < |at| && at[i] == k;
      assert picked[i] == b;
    }
    if b in picked {
      var i :| 0 <= i < |picked| && picked[i] == b;
      assert chosen(all[at[i]]);
    }
  }

  lemma PickedSame<A, B>(
    picked: seq<B>, all: seq<A>, chosen: A -> bool, other: A -> bool, made: A -> B, makes: A -> B)
    requires Picked(picked, all, chosen, made)
    requires forall i :: 0 <= i < |all| ==> chosen(all[i]) == other(all[i]) && made(all[i]) == makes(all[i])
    ensures Picked(picked, all, other, makes)
  {
    var at: seq<int> :|
      Places(at, |all|) && Makes(at, picked, all, chosen, made) && NoneLeftOut(at, all, chosen);
    assert Makes(at, picked, all, other, makes) && NoneLeftOut(at, all, other);
  }
}
