/** User names and the vectors of them the managers keep. */
module Names {
  type Name = string

  ghost predicate Distinct(names: seq<Name>) {
    forall i, j :: 0 <= i < j < |names| ==> names[i] != names[j]
  }

  /** `erase(remove(...))`: every occurrence goes, the order of the rest stays. */
  function Without(names: seq<Name>, gone: Name): seq<Name> {
    if names == [] then []
    else if names[0] == gone then Without(names[1..], gone)
    else [names[0]] + Without(names[1..], gone)
  }

  /** The same list built from its other end. */
  lemma {:induction false} WithoutAppended(names: seq<Name>, more: Name, gone: Name)
    ensures Without([], gone) == []
    ensures Without(names + [more], gone) == Without(names, gone) + (if more == gone then [] else [more])
  {
    if names == [] {
      assert names + [more] == [more] && [more][1..] == [];
    } else {
      WithoutAppended(names[1..], more, gone);
      assert (names + [more])[1..] == names[1..] + [more];
    }
  }

  lemma {:induction false} WithoutMembers(names: seq<Name>, gone: Name)
    ensures forall n :: n in Without(names, gone) <==> n in names && n != gone
    ensures |Without(names, gone)| <= |names|
  {
    if names != [] {
      WithoutMembers(names[1..], gone);
      assert names == [names[0]] + names[1..];
    }
  }

  lemma {:induction false} WithoutDistinct(names: seq<Name>, gone: Name)
    requires Distinct(names)
    ensures Distinct(Without(names, gone))
  {
    if names != [] {
      WithoutMembers(names[1..], gone);
      WithoutDistinct(names[1..], gone);
      assert names[0] !in names[1..];
    }
  }
}
