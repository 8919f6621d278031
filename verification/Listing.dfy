/** Sets in ascending order, as a `BTreeSet` iterates, and paging through a sequence. */
module Listing {
  ghost predicate IsLeast(s: set<nat>, m: nat) {
    m in s && forall x | x in s :: m <= x
  }

  lemma {:induction false} LeastExists(s: set<nat>)
    requires s != {}
    ensures exists m: nat :: IsLeast(s, m)
    decreases |s|
  {
    var m :| m in s;
    var rest := s - {m};
    if rest == {} {
      assert s == {m};
      assert IsLeast(s, m);
    } else {
      LeastExists(rest);
      var least: nat :| IsLeast(rest, least);
      assert forall x | x in s :: x == m || x in rest;
      assert IsLeast(s, if least < m then least else m);
    }
  }

  ghost function Least(s: set<nat>): (m: nat)
    requires s != {}
    ensures IsLeast(s, m)
  {
    LeastExists(s);
    var m: nat :| IsLeast(s, m);
    m
  }

  ghost function Ascending(s: set<nat>): seq<nat>
    decreases |s|
  {
    if s == {} then [] else [Least(s)] + Ascending(s - {Least(s)})
  }

  /** Each element once, in increasing order. */
  lemma {:induction false} AscendingListsEach(s: set<nat>)
    ensures forall x :: x in Ascending(s) <==> x in s
    ensures forall i, j | 0 <= i < j < |Ascending(s)| :: Ascending(s)[i] < Ascending(s)[j]
    ensures |Ascending(s)| == |s|
    decreases |s|
  {
    if s != {} {
      var m := Least(s);
      AscendingListsEach(s - {m});
      var rest := Ascending(s - {m});
      assert Ascending(s) == [m] + rest;
      forall j | 0 <= j < |rest| ensures m < rest[j] { assert rest[j] in rest; }
    }
  }

  /** Walking the set from its least element builds the ascending sequence. */
  method ToAscending(s: set<nat>) returns (r: seq<nat>)
    ensures r == Ascending(s)
  {
    r := [];
    var rest := s;
    while rest != {}
      invariant r + Ascending(rest) == Ascending(s)
      decreases |rest|
    {
      ghost var expected := Least(rest);
      LeastExists(rest);
      var m :| m in rest && forall x | x in rest :: m <= x;
      assert m == expected;
      r := r + [m];
      rest := rest - {m};
    }
  }
}
