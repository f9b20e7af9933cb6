/**
 * Going down from several cities of a forest, one city after another: what is found, and how many
 * reads it takes.
 */
module Descent {
  import opened Collections
  import opened CityHierarchy

  /** What lies below one of the cities. */
  ghost function BelowAny(db: Cities, cs: seq<CityId>): set<CityId> {
    if cs == [] then {} else Descendants(db, cs[0]) + BelowAny(db, cs[1..])
  }

  ghost function Family(db: Cities, c: CityId): set<CityId> {
    {c} + Descendants(db, c)
  }

  ghost function Families(db: Cities, cs: seq<CityId>): set<CityId> {
    if cs == [] then {} else Family(db, cs[0]) + Families(db, cs[1..])
  }

  /** How many cities are read when going down from all of them. */
  ghost function Weight(db: Cities, cs: seq<CityId>): nat {
    if cs == [] then 0 else 1 + |Descendants(db, cs[0])| + Weight(db, cs[1..])
  }

  lemma {:induction false} InBelowAny(db: Cities, cs: seq<CityId>, x: CityId)
    ensures x in BelowAny(db, cs) <==> exists c :: c in cs && x in Descendants(db, c)
  {
    if cs != [] {
      assert cs == [cs[0]] + cs[1..];
      InBelowAny(db, cs[1..], x);
    }
  }

  lemma {:induction false} InFamilies(db: Cities, cs: seq<CityId>, x: CityId)
    ensures x in Families(db, cs) <==> exists c :: c in cs && x in Family(db, c)
  {
    if cs != [] {
      assert cs == [cs[0]] + cs[1..];
      InFamilies(db, cs[1..], x);
    }
  }

  lemma {:induction false} FamiliesAreBelow(db: Cities, cs: seq<CityId>)
    ensures Families(db, cs) == Elems(cs) + BelowAny(db, cs)
  {
    if cs != [] {
      assert cs == [cs[0]] + cs[1..];
      FamiliesAreBelow(db, cs[1..]);
    }
  }

  lemma {:induction false} DescentConcat(db: Cities, cs: seq<CityId>, ds: seq<CityId>)
    ensures BelowAny(db, cs + ds) == BelowAny(db, cs) + BelowAny(db, ds)
    ensures Weight(db, cs + ds) == Weight(db, cs) + Weight(db, ds)
  {
    if cs == [] {
      assert cs + ds == ds;
    } else {
      assert (cs + ds)[1..] == cs[1..] + ds;
      DescentConcat(db, cs[1..], ds);
    }
  }

  /** Siblings have disjoint families, so going down from them reads as many cities as these have. */
  lemma {:induction false} WeightOfSiblings(db: Cities, p: CityId, cs: seq<CityId>)
    requires NoDup(cs) && !Below(db, p, p) && forall c :: c in cs ==> IsActiveChild(db, p, c)
    ensures Weight(db, cs) == |Families(db, cs)|
  {
    if cs != [] {
      var c, rest := cs[0], cs[1..];
      assert cs == [c] + rest;
      WeightOfSiblings(db, p, rest);
      forall x | x in Family(db, c) ensures x !in Families(db, rest) {
        ApartFromSiblings(db, p, c, rest, x);
      }
      DescendantsShrink(db, p, c);
    }
  }

  lemma ApartFromSiblings(db: Cities, p: CityId, c: CityId, cs: seq<CityId>, x: CityId)
    requires !Below(db, p, p) && IsActiveChild(db, p, c) && c !in cs && x in Family(db, c)
    requires forall d :: d in cs ==> IsActiveChild(db, p, d)
    ensures x !in Families(db, cs)
  {
    InFamilies(db, cs, x);
    forall d | d in cs ensures x !in Family(db, d) {
      if x in Family(db, d) {
        SiblingsDisjoint(db, p, c, d, x);
      }
    }
  }

  /** What lies below a city are the families of its children. */
  lemma BelowIsFamilies(db: Cities, p: CityId, cs: seq<CityId>)
    requires Lists(db, p, false, cs)
    ensures Descendants(db, p) == Families(db, cs)
  {
    forall x ensures x in Descendants(db, p) <==> x in Families(db, cs) {
      InFamilies(db, cs, x);
      if x in Descendants(db, p) {
        var c := BelowThroughChild(db, p, x);
        assert x in Family(db, c);
      }
      if x in Families(db, cs) {
        var c :| c in cs && x in Family(db, c);
        ChildIsBelow(db, p, c);
        if x != c {
          BelowTransitive(db, p, c, x);
        }
      }
    }
  }

  /**
   * Reading the children of the first city, and going on from them, leaves one city less to read
   * and finds the same.
   */
  lemma OneDown(db: Cities, todo: seq<CityId>, children: seq<CityId>)
    requires todo != [] && Lists(db, todo[0], false, children) && !Below(db, todo[0], todo[0])
    ensures BelowAny(db, todo) == Elems(children) + BelowAny(db, children + todo[1..])
    ensures Weight(db, children + todo[1..]) == Weight(db, todo) - 1
    ensures forall c :: c in children ==> !Below(db, c, c)
  {
    var p := todo[0];
    BelowIsFamilies(db, p, children);
    FamiliesAreBelow(db, children);
    WeightOfSiblings(db, p, children);
    DescentConcat(db, children, todo[1..]);
    forall c | c in children ensures !Below(db, c, c) {
      DescendantsShrink(db, p, c);
    }
  }

  /** The active children of a city in some order. */
  lemma SomeListing(db: Cities, p: CityId) returns (children: seq<CityId>)
    ensures Lists(db, p, false, children)
  {
    children := InSomeOrder(set c | c in db && IsActiveChild(db, p, c));
  }

  lemma {:induction false} InSomeOrder(s: set<CityId>) returns (cs: seq<CityId>)
    ensures NoDup(cs) && forall c :: c in cs <==> c in s
  {
    if s == {} {
      cs := [];
    } else {
      var c :| c in s;
      var rest := InSomeOrder(s - {c});
      cs := [c] + rest;
      NoDupConcat([c], rest);
    }
  }
}
