/**
  The ride list (src/components/RideOptions.tsx): a fixed catalog of five
  offers and the four tabs derived from it. "All" is the catalog as it is,
  "economy" and "premium" keep the offers below and from 300 in fare, and
  "fastest" sorts by pickup time plus travel time, keeps the first three and
  marks only the first of them as recommended.

  The source sorts the catalog array in place after the other three tabs
  have been built from it in the same render; here the sort is a pure
  function and every tab is built from the catalog.
 */
module Rides {
  import opened Options
  import opened Text

  datatype Provider = Uber | Ola | Rapido

  /**
    One offer. `kind` is the source's `type` field; an offer without a
    `recommended` field has it false, and one without a reason has `None`.
   */
  datatype RideOffer = RideOffer(
    provider: Provider,
    kind: string,
    fare: int,
    eta: int,
    travelTime: int,
    recommended: bool,
    recommendReason: Option<string>)

  /** The catalog, in the order the source lists it. */
  const Catalog: seq<RideOffer> := [
    RideOffer(Uber, "UberGo", 254, 4, 24, true, Some("Best overall value")),
    RideOffer(Ola, "Ola Mini", 224, 8, 22, false, Some("Lowest price")),
    RideOffer(Rapido, "Bike", 129, 3, 18, false, Some("Fastest arrival")),
    RideOffer(Uber, "Premier", 356, 6, 24, false, None),
    RideOffer(Ola, "Prime Sedan", 328, 7, 22, false, None)
  ]

  /** Minutes until arrival at the destination: pickup time plus travel time. */
  function Total(o: RideOffer): int {
    o.eta + o.travelTime
  }

  /** The tests the tabs select offers by. */
  datatype Criterion = FareBelow(limit: int) | FareAtLeast(limit: int) | TotalIs(minutes: int)

  predicate Meets(o: RideOffer, k: Criterion) {
    match k
    case FareBelow(limit) => o.fare < limit
    case FareAtLeast(limit) => o.fare >= limit
    case TotalIs(minutes) => Total(o) == minutes
  }

  /** `Array.prototype.filter`: the offers meeting `k`, in their order. */
  function Filter(c: seq<RideOffer>, k: Criterion): (r: seq<RideOffer>)
    ensures |r| <= |c|
    decreases |c|
  {
    if c == [] then [] else (if Meets(c[0], k) then [c[0]] else []) + Filter(c[1..], k)
  }

  /** The economy tab's test, `fare < 300`. */
  const Cheap := FareBelow(300)

  /** The premium tab's test, `fare >= 300`. */
  const Pricey := FareAtLeast(300)

  function Economy(c: seq<RideOffer>): seq<RideOffer> {
    Filter(c, Cheap)
  }

  function Premium(c: seq<RideOffer>): seq<RideOffer> {
    Filter(c, Pricey)
  }

  /** The filter of a sequence with one more offer in front. */
  lemma FilterCons(x: RideOffer, s: seq<RideOffer>, k: Criterion)
    ensures Filter([x] + s, k) == (if Meets(x, k) then [x] else []) + Filter(s, k)
  {
    assert ([x] + s)[0] == x;
    assert ([x] + s)[1..] == s;
  }

  /** Filtering keeps the order: it distributes over concatenation. */
  lemma {:induction false} FilterAppend(a: seq<RideOffer>, b: seq<RideOffer>, k: Criterion)
    ensures Filter(a + b, k) == Filter(a, k) + Filter(b, k)
    decreases |a|
  {
    if a != [] {
      var head := if Meets(a[0], k) then [a[0]] else [];
      assert Filter(a + b, k) == head + Filter(a[1..] + b, k) by {
        assert a + b == [a[0]] + (a[1..] + b);
        FilterCons(a[0], a[1..] + b, k);
      }
      assert Filter(a, k) == head + Filter(a[1..], k) by {
        assert a == [a[0]] + a[1..];
        FilterCons(a[0], a[1..], k);
      }
      FilterAppend(a[1..], b, k);
      assert head + (Filter(a[1..], k) + Filter(b, k)) == (head + Filter(a[1..], k)) + Filter(b, k);
    } else {
      assert a + b == b;
    }
  }

  /** Filtering keeps every copy of each offer that passes and no copy of one that does not. */
  lemma {:induction false} FilterCounts(c: seq<RideOffer>, k: Criterion, o: RideOffer)
    ensures multiset(Filter(c, k))[o] == if Meets(o, k) then multiset(c)[o] else 0
    decreases |c|
  {
    if c != [] {
      FilterCounts(c[1..], k, o);
      assert c == [c[0]] + c[1..];
    }
  }

  /** An offer is kept exactly when it is in the list and meets the test. */
  lemma FilterMembers(c: seq<RideOffer>, k: Criterion, o: RideOffer)
    ensures o in Filter(c, k) <==> o in c && Meets(o, k)
  {
    FilterCounts(c, k, o);
    assert o in Filter(c, k) <==> o in multiset(Filter(c, k));
    assert o in c <==> o in multiset(c);
  }

  /**
    Economy and premium split any list of offers: together they hold every
    copy of every offer, and each offer of the list is in exactly one of them.
   */
  lemma EconomyPremiumPartition(c: seq<RideOffer>)
    ensures multiset(Economy(c)) + multiset(Premium(c)) == multiset(c)
    ensures |Economy(c)| + |Premium(c)| == |c|
    ensures forall o :: o in c ==> (o in Economy(c) <==> o !in Premium(c))
  {
    forall o ensures multiset(Economy(c))[o] + multiset(Premium(c))[o] == multiset(c)[o] {
      FilterCounts(c, Cheap, o);
      FilterCounts(c, Pricey, o);
    }
    assert multiset(Economy(c)) + multiset(Premium(c)) == multiset(c);
    assert |multiset(Economy(c))| + |multiset(Premium(c))| == |multiset(c)|;
    forall o | o in c ensures o in Economy(c) <==> o !in Premium(c) {
      FilterMembers(c, Cheap, o);
      FilterMembers(c, Pricey, o);
    }
  }

  /** Non-decreasing in total time. */
  predicate Sorted(s: seq<RideOffer>) {
    forall i, j :: 0 <= i < j < |s| ==> Total(s[i]) <= Total(s[j])
  }

  /** Insert `x` before the first offer whose total is not smaller, so it stays ahead of its ties. */
  function Insert(x: RideOffer, s: seq<RideOffer>): (r: seq<RideOffer>)
    ensures |r| == |s| + 1
    ensures r[0] == x || (|s| > 0 && r[0] == s[0])
    decreases |s|
  {
    if s == [] then [x]
    else if Total(x) <= Total(s[0]) then [x] + s
    else
      assert s == [s[0]] + s[1..];
      [s[0]] + Insert(x, s[1..])
  }

  /** The comparator sort of the fastest tab: ascending total, ties in catalog order. */
  function SortByTotal(c: seq<RideOffer>): (r: seq<RideOffer>)
    ensures |r| == |c|
    decreases |c|
  {
    if c == [] then [] else Insert(c[0], SortByTotal(c[1..]))
  }

  /** Inserting adds exactly one copy of `x`. */
  lemma {:induction false} InsertPermutes(x: RideOffer, s: seq<RideOffer>)
    ensures multiset(Insert(x, s)) == multiset(s) + multiset{x}
    decreases |s|
  {
    if s != [] && Total(x) > Total(s[0]) {
      InsertPermutes(x, s[1..]);
      assert s == [s[0]] + s[1..];
    }
  }

  /** The sort is a permutation: every offer keeps its number of copies. */
  lemma {:induction false} SortPermutes(c: seq<RideOffer>)
    ensures multiset(SortByTotal(c)) == multiset(c)
    decreases |c|
  {
    if c != [] {
      SortPermutes(c[1..]);
      InsertPermutes(c[0], SortByTotal(c[1..]));
      assert c == [c[0]] + c[1..];
    }
  }

  /** Inserting into a sorted list keeps it sorted. */
  lemma {:induction false} InsertSorted(x: RideOffer, s: seq<RideOffer>)
    requires Sorted(s)
    ensures Sorted(Insert(x, s))
    decreases |s|
  {
    if s != [] && Total(x) > Total(s[0]) {
      var rest := Insert(x, s[1..]);
      InsertSorted(x, s[1..]);
      assert Total(s[0]) <= Total(rest[0]);
      assert Insert(x, s) == [s[0]] + rest;
    }
  }

  /** The sort's result is in non-decreasing total order. */
  lemma {:induction false} SortSorted(c: seq<RideOffer>)
    ensures Sorted(SortByTotal(c))
    decreases |c|
  {
    if c != [] {
      SortSorted(c[1..]);
      InsertSorted(c[0], SortByTotal(c[1..]));
    }
  }

  /** Inserting keeps the ties in order: `x` lands in front of every offer with its total. */
  lemma {:induction false} InsertKeepsTies(x: RideOffer, s: seq<RideOffer>, t: int)
    ensures Filter(Insert(x, s), TotalIs(t)) == Filter([x] + s, TotalIs(t))
    decreases |s|
  {
    var k := TotalIs(t);
    if s != [] && Total(x) > Total(s[0]) {
      var s' := s[1..];
      var a := if Meets(s[0], k) then [s[0]] else [];
      var b := if Meets(x, k) then [x] else [];
      InsertKeepsTies(x, s', t);
      FilterCons(s[0], Insert(x, s'), k);
      FilterCons(x, s', k);
      assert Filter(Insert(x, s), k) == a + (b + Filter(s', k));
      FilterCons(s[0], s', k);
      assert s == [s[0]] + s';
      FilterCons(x, s, k);
      assert Filter([x] + s, k) == b + (a + Filter(s', k));
      if Meets(x, k) {
        assert a == [];
      } else {
        assert b == [];
      }
    } else if s == [] {
      assert [x] + s == [x];
    }
  }

  /**
    The sort is stable: for every total, the offers with that total come out
    in the order they went in.
   */
  lemma {:induction false} SortIsStable(c: seq<RideOffer>, t: int)
    ensures Filter(SortByTotal(c), TotalIs(t)) == Filter(c, TotalIs(t))
    decreases |c|
  {
    if c != [] {
      SortIsStable(c[1..], t);
      InsertKeepsTies(c[0], SortByTotal(c[1..]), t);
      FilterCons(c[0], SortByTotal(c[1..]), TotalIs(t));
      FilterCons(c[0], c[1..], TotalIs(t));
      assert c == [c[0]] + c[1..];
    }
  }

  function Min(a: int, b: int): int {
    if a <= b then a else b
  }

  /**
    The per-tab override of the fastest tab: the first offer is recommended
    as "Fastest option", every other one is not and has no reason; nothing
    else about an offer changes.
   */
  function Annotate(s: seq<RideOffer>): (r: seq<RideOffer>)
    ensures |r| == |s|
    ensures forall i :: 0 <= i < |r| ==> (r[i].recommended <==> i == 0)
    ensures forall i :: 0 <= i < |r| ==> (r[i].recommendReason.Some? <==> i == 0)
    ensures |r| > 0 ==> r[0].recommendReason == Some("Fastest option")
    ensures forall i :: 0 <= i < |r| ==>
      r[i].provider == s[i].provider && r[i].kind == s[i].kind && r[i].fare == s[i].fare
      && r[i].eta == s[i].eta && r[i].travelTime == s[i].travelTime
  {
    seq(|s|, i requires 0 <= i < |s| =>
      s[i].(recommended := i == 0, recommendReason := if i == 0 then Some("Fastest option") else None))
  }

  /** The override on a tab of three offers. */
  lemma AnnotateThree(x: RideOffer, y: RideOffer, z: RideOffer)
    ensures Annotate([x, y, z]) == [x.(recommended := true, recommendReason := Some("Fastest option")),
      y.(recommended := false, recommendReason := None), z.(recommended := false, recommendReason := None)]
  {
  }

  /** The fastest tab: sort, keep the first three, annotate. */
  function Fastest(c: seq<RideOffer>): seq<RideOffer> {
    var sorted := SortByTotal(c);
    Annotate(sorted[..Min(3, |sorted|)])
  }

  /** The first three of the stably sorted list, with only the first one recommended. */
  lemma FastestShape(c: seq<RideOffer>)
    ensures |Fastest(c)| == Min(3, |c|)
    ensures Sorted(Fastest(c))
    ensures forall i :: 0 <= i < |Fastest(c)| ==>
      Fastest(c)[i] == SortByTotal(c)[i].(recommended := i == 0,
        recommendReason := if i == 0 then Some("Fastest option") else None)
    ensures forall i, j :: 0 <= i < |Fastest(c)| <= j < |c| ==> Total(Fastest(c)[i]) <= Total(SortByTotal(c)[j])
    ensures multiset(SortByTotal(c)) == multiset(c)
  {
    SortPermutes(c);
    var sorted := SortByTotal(c);
    var f := Fastest(c);
    SortSorted(c);
    forall i, j | 0 <= i < j < |f| ensures Total(f[i]) <= Total(f[j]) {
      assert Total(f[i]) == Total(sorted[i]);
      assert Total(f[j]) == Total(sorted[j]);
    }
    forall i, j | 0 <= i < |f| <= j < |c| ensures Total(f[i]) <= Total(sorted[j]) {
      assert Total(f[i]) == Total(sorted[i]);
    }
  }

  /** The tabs. */
  datatype Views = Views(all: seq<RideOffer>, economy: seq<RideOffer>, premium: seq<RideOffer>, fastest: seq<RideOffer>)

  function Classify(c: seq<RideOffer>): Views {
    Views(c, Economy(c), Premium(c), Fastest(c))
  }

  /**
    `showMockResults`: the tabs, built from the offers at hand, appear only
    when both names are present; otherwise a hint does. The component uses
    `Catalog` for the offers, which it notes would come from a backend.
   */
  function ShowViews(offers: seq<RideOffer>, source: string, destination: string): (v: Option<Views>)
    ensures v.Some? <==> Truthy(source) && Truthy(destination)
    ensures v.Some? ==>
      v.value.all == offers && v.value.economy == Economy(offers)
      && v.value.premium == Premium(offers) && v.value.fastest == Fastest(offers)
  {
    if Truthy(source) && Truthy(destination) then Some(Classify(offers)) else None
  }

  /** For the shipped catalog: economy holds the first three offers and premium the last two. */
  lemma CatalogTiers()
    ensures Economy(Catalog) == Catalog[..3]
    ensures Premium(Catalog) == Catalog[3..]
  {
    var c := Catalog;
    FilterAppend(c[..3], c[3..], Cheap);
    FilterAppend(c[..3], c[3..], Pricey);
    assert c == c[..3] + c[3..];
  }

  /** Insertion in front of an offer that is not faster. */
  lemma InsertAhead(x: RideOffer, s: seq<RideOffer>)
    requires s != [] && Total(x) <= Total(s[0])
    ensures Insert(x, s) == [x] + s
  {
  }

  /** Insertion behind a faster offer. */
  lemma InsertBehind(x: RideOffer, s: seq<RideOffer>)
    requires s != [] && Total(x) > Total(s[0])
    ensures Insert(x, s) == [s[0]] + Insert(x, s[1..])
  {
  }

  /** The sort of a list with one more offer in front. */
  lemma SortCons(x: RideOffer, s: seq<RideOffer>)
    ensures SortByTotal([x] + s) == Insert(x, SortByTotal(s))
  {
    assert ([x] + s)[0] == x;
    assert ([x] + s)[1..] == s;
  }

  /** The last three offers of the catalog, with totals 21, 30 and 29, sort as first, third, second. */
  lemma SortThree(c: RideOffer, d: RideOffer, e: RideOffer)
    requires Total(c) == 21 && Total(d) == 30 && Total(e) == 29
    ensures SortByTotal([c, d, e]) == [c, e, d]
  {
    SortCons(e, []);
    assert SortByTotal([e]) == [e] by { assert [e] + [] == [e]; }
    SortCons(d, [e]);
    InsertBehind(d, [e]);
    assert SortByTotal([d, e]) == [e, d] by { assert [d] + [e] == [d, e]; }
    SortCons(c, [d, e]);
    InsertAhead(c, [e, d]);
    assert [c] + [d, e] == [c, d, e];
  }

  /** Five offers with the catalog's totals (28, 30, 21, 30, 29) sort as the third, first, fifth, second, fourth. */
  lemma SortFive(a: RideOffer, b: RideOffer, c: RideOffer, d: RideOffer, e: RideOffer)
    requires Total(a) == 28 && Total(b) == 30 && Total(c) == 21 && Total(d) == 30 && Total(e) == 29
    ensures SortByTotal([a, b, c, d, e]) == [c, a, e, b, d]
  {
    SortThree(c, d, e);
    assert SortByTotal([b, c, d, e]) == [c, e, b, d] by {
      SortCons(b, [c, d, e]);
      InsertBehind(b, [c, e, d]);
      InsertBehind(b, [e, d]);
      InsertAhead(b, [d]);
      assert [c, e, d][1..] == [e, d];
      assert [e, d][1..] == [d];
      assert [b] + [c, d, e] == [b, c, d, e];
    }
    SortCons(a, [b, c, d, e]);
    InsertBehind(a, [c, e, b, d]);
    InsertAhead(a, [e, b, d]);
    assert [c, e, b, d][1..] == [e, b, d];
    assert [a] + [b, c, d, e] == [a, b, c, d, e];
  }

  /** The shipped catalog sorted: Bike (21), UberGo (28), Prime Sedan (29), Ola Mini (30), Premier (30). */
  lemma CatalogSorted()
    ensures SortByTotal(Catalog) == [Catalog[2], Catalog[0], Catalog[4], Catalog[1], Catalog[3]]
  {
    var c := Catalog;
    assert c == [c[0], c[1], c[2], c[3], c[4]];
    SortFive(c[0], c[1], c[2], c[3], c[4]);
  }

  /** For the shipped catalog the fastest tab is Bike (21), UberGo (28), Prime Sedan (29), with only Bike recommended. */
  lemma CatalogFastest()
    ensures |Fastest(Catalog)| == 3
    ensures Fastest(Catalog)[0] == Catalog[2].(recommended := true, recommendReason := Some("Fastest option"))
    ensures Fastest(Catalog)[1] == Catalog[0].(recommended := false, recommendReason := None)
    ensures Fastest(Catalog)[2] == Catalog[4]
  {
    var c := Catalog;
    CatalogSorted();
    assert SortByTotal(c)[..Min(3, |c|)] == [c[2], c[0], c[4]];
    AnnotateThree(c[2], c[0], c[4]);
  }

  /**
    The all tab keeps the catalog's own flags: UberGo, and only UberGo, is
    recommended there, as "Best overall value", while the fastest tab shows
    the same offer unrecommended.
   */
  lemma AllTabKeepsCatalogFlag()
    ensures Classify(Catalog).all == Catalog
    ensures forall i :: 0 <= i < |Catalog| ==> (Catalog[i].recommended <==> i == 0)
    ensures Catalog[0].kind == "UberGo" && Catalog[0].recommendReason == Some("Best overall value")
    ensures Fastest(Catalog)[1].kind == "UberGo" && !Fastest(Catalog)[1].recommended
  {
    CatalogFastest();
  }

  /** With no offers at all, every tab is empty. */
  lemma NoOffersNoTabs()
    ensures Classify([]) == Views([], [], [], [])
  {
  }
}
