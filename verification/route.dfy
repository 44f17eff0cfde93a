/**
  The route estimator of the map panel (`getRouteDetails` in
  src/components/Map.tsx): a table of six known routes looked up by a
  lower-cased "source-destination" key and then by the reversed key, and a
  deterministic fallback computed from the two input lengths. Those are
  JavaScript lengths, counted in UTF-16 code units.

  The source produces display strings. The table's strings are kept as the
  source lists them; the fallback is computed as numbers (distance in tenths
  of a kilometre, duration in whole minutes) and then rendered.
 */
module Route {
  import opened Options
  import opened Text

  /** What the map panel shows: a distance and a duration, as display strings. */
  datatype RouteInfo = RouteInfo(distance: string, duration: string)

  /** A computed estimate: distance in tenths of a kilometre, duration in minutes. */
  datatype Estimate = Estimate(tenthsKm: nat, minutes: nat)

  /** One entry of the known-route table; its key text is `from + "-" + to`. */
  datatype KnownRoute = KnownRoute(from: string, to: string, info: RouteInfo)

  /** The known routes, in the order the source lists them. */
  const KnownRoutes: seq<KnownRoute> := [
    KnownRoute("pesu rr", "reva university", RouteInfo("38.8 km", "1 hr 10 min")),
    KnownRoute("pesu rr", "downtown", RouteInfo("12.3 km", "35 min")),
    KnownRoute("downtown", "marina", RouteInfo("5.7 km", "15 min")),
    KnownRoute("park view", "green park", RouteInfo("7.9 km", "22 min")),
    KnownRoute("current location", "reva university", RouteInfo("40.2 km", "1 hr 15 min")),
    KnownRoute("current location", "downtown", RouteInfo("10.5 km", "30 min"))
  ]

  /** The key text the source uses for an entry. */
  function KeyOf(r: KnownRoute): string {
    r.from + "-" + r.to
  }

  /** The lookup key for a pair of names: both lower-cased, joined by a dash. */
  function RouteKey(source: string, destination: string): string {
    Lower(source) + "-" + Lower(destination)
  }

  /** `knownRoutes[key]`, from position `start` on: the position of the entry with that key text. */
  function FindFrom(key: string, start: nat): (r: Option<nat>)
    requires start <= |KnownRoutes|
    ensures r.Some? ==> start <= r.value < |KnownRoutes| && KeyOf(KnownRoutes[r.value]) == key
    ensures r.None? ==> forall i :: start <= i < |KnownRoutes| ==> KeyOf(KnownRoutes[i]) != key
    decreases |KnownRoutes| - start
  {
    if start == |KnownRoutes| then None
    else if KeyOf(KnownRoutes[start]) == key then Some(start)
    else FindFrom(key, start + 1)
  }

  /** `knownRoutes[key]`: the position of the table entry whose key text is `key`, if any. */
  function FindRoute(key: string): Option<nat> {
    FindFrom(key, 0)
  }

  /** `Math.round(x)` for a non-negative rational `num / den`: halves round up. */
  function RoundHalfUp(num: nat, den: nat): (r: nat)
    requires den > 0
    ensures 2 * den * r <= 2 * num + den < 2 * den * (r + 1)
  {
    (2 * num + den) / (2 * den)
  }

  /**
    `(source.length + destination.length) % 10`, the step the fallback is
    built on. `length` counts UTF-16 code units, so it is the number of
    characters only when none lies above U+FFFF.
   */
  function Bucket(source: string, destination: string): (c: nat)
    ensures c < 10
  {
    (JsLength(source) + JsLength(destination)) % 10
  }

  /** Without characters above U+FFFF, the bucket is the number of characters modulo 10. */
  lemma BucketOfBmp(source: string, destination: string)
    requires Bmp(source) && Bmp(destination)
    ensures Bucket(source, destination) == (|source| + |destination|) % 10
  {
    JsLengthIsSize(source);
    JsLengthIsSize(destination);
  }

  /**
    The fallback for an unknown route: 5 km plus 3.5 km per bucket step, and
    the distance times 1.8 minutes per kilometre, rounded.
   */
  function Fallback(source: string, destination: string): (e: Estimate)
    ensures 10 * e.tenthsKm == 500 + 350 * Bucket(source, destination)
    ensures 50 <= e.tenthsKm <= 365
    ensures 200 * e.minutes <= 36 * e.tenthsKm + 100 < 200 * (e.minutes + 1)
    ensures 9 <= e.minutes <= 66
  {
    var tenths := 50 + 35 * Bucket(source, destination);
    Estimate(tenths, RoundHalfUp(18 * tenths, 100))
  }

  /** `toFixed(1)` followed by " km". */
  function FormatDistance(tenthsKm: nat): string {
    NatToString(tenthsKm / 10) + "." + [DigitChar(tenthsKm % 10)] + " km"
  }

  /** "H hr M min" from an hour on, "N min" below it. */
  function FormatDuration(minutes: nat): string {
    if minutes >= 60 then
      NatToString(minutes / 60) + " hr " + NatToString(minutes % 60) + " min"
    else
      NatToString(minutes) + " min"
  }

  function Render(e: Estimate): RouteInfo {
    RouteInfo(FormatDistance(e.tenthsKm), FormatDuration(e.minutes))
  }

  /** `getRouteDetails`: forward key, then reverse key, then the fallback. */
  function RouteDetails(source: string, destination: string): RouteInfo {
    match FindRoute(RouteKey(source, destination))
    case Some(i) => KnownRoutes[i].info
    case None =>
      match FindRoute(RouteKey(destination, source))
      case Some(i) => KnownRoutes[i].info
      case None => Render(Fallback(source, destination))
  }

  /** No place name of the table contains a dash. */
  lemma NamesDashFree()
    ensures '-' !in "pesu rr"
    ensures '-' !in "reva university"
    ensures '-' !in "downtown"
    ensures '-' !in "marina"
    ensures '-' !in "park view"
    ensures '-' !in "green park"
    ensures '-' !in "current location"
  {
  }

  lemma EntryDashFree(i: int)
    requires 0 <= i < |KnownRoutes|
    ensures '-' !in KnownRoutes[i].from && '-' !in KnownRoutes[i].to
  {
    NamesDashFree();
  }

  /** No route is listed in both directions. */
  lemma NoEntryReversed(i: int, j: int)
    requires 0 <= i < |KnownRoutes| && 0 <= j < |KnownRoutes|
    ensures KnownRoutes[j].from != KnownRoutes[i].to || KnownRoutes[j].to != KnownRoutes[i].from
  {
  }

  /** The key texts are pairwise distinct, as the keys of an object literal are. */
  lemma KeysDistinct(i: int, j: int)
    requires 0 <= i < |KnownRoutes| && 0 <= j < |KnownRoutes| && i != j
    ensures KeyOf(KnownRoutes[i]) != KeyOf(KnownRoutes[j])
  {
  }

  /** A dash-joined key splits back into its two halves when the halves have no dash. */
  lemma SplitAtDash(u: string, v: string, a: string, b: string)
    requires u + "-" + v == a + "-" + b
    requires '-' !in a && '-' !in b
    ensures u == a && v == b
  {
    var k := u + "-" + v;
    assert k[|u|] == '-';
    assert forall i :: 0 <= i < |a| ==> k[i] == a[i] != '-';
    assert forall j :: |a| < j < |k| ==> k[j] == b[j - |a| - 1] != '-';
    assert |u| == |a|;
    assert u == k[..|u|] == a;
    assert v == k[|u| + 1..] == b;
  }

  /** A key is found exactly at the entry whose names are the lower-cased inputs. */
  lemma FoundMeansNames(source: string, destination: string)
    requires FindRoute(RouteKey(source, destination)).Some?
    ensures var e := KnownRoutes[FindRoute(RouteKey(source, destination)).value];
      Lower(source) == e.from && Lower(destination) == e.to
  {
    var i := FindRoute(RouteKey(source, destination)).value;
    EntryDashFree(i);
    SplitAtDash(Lower(source), Lower(destination), KnownRoutes[i].from, KnownRoutes[i].to);
  }

  /** When the forward key is known, the reverse key is not. */
  lemma ForwardExcludesReverse(source: string, destination: string)
    requires FindRoute(RouteKey(source, destination)).Some?
    ensures FindRoute(RouteKey(destination, source)).None?
  {
    FoundMeansNames(source, destination);
    if FindRoute(RouteKey(destination, source)).Some? {
      FoundMeansNames(destination, source);
      NoEntryReversed(FindRoute(RouteKey(source, destination)).value,
                      FindRoute(RouteKey(destination, source)).value);
    }
  }

  /** What the panel shows does not depend on the order of the two names. */
  lemma RouteDetailsSymmetric(source: string, destination: string)
    ensures RouteDetails(source, destination) == RouteDetails(destination, source)
  {
    if FindRoute(RouteKey(source, destination)).Some? {
      ForwardExcludesReverse(source, destination);
    } else if FindRoute(RouteKey(destination, source)).Some? {
      ForwardExcludesReverse(destination, source);
    } else {
      assert Fallback(source, destination) == Fallback(destination, source);
    }
  }

  /** The display depends on the names only through the two keys and the bucket. */
  lemma DetailsByKeys(s1: string, d1: string, s2: string, d2: string)
    requires RouteKey(s1, d1) == RouteKey(s2, d2) && RouteKey(d1, s1) == RouteKey(d2, s2)
    requires Bucket(s1, d1) == Bucket(s2, d2)
    ensures RouteDetails(s1, d1) == RouteDetails(s2, d2)
  {
    assert Fallback(s1, d1) == Fallback(s2, d2);
  }

  /** Names that agree up to case get the same display. */
  lemma RouteDetailsIgnoresCase(s1: string, d1: string, s2: string, d2: string)
    requires Lower(s1) == Lower(s2) && Lower(d1) == Lower(d2)
    ensures RouteDetails(s1, d1) == RouteDetails(s2, d2)
  {
    LowerSameJsLength(s1, s2);
    LowerSameJsLength(d1, d2);
    assert Bucket(s1, d1) == Bucket(s2, d2);
    DetailsByKeys(s1, d1, s2, d2);
  }

  /** A pair of names gets the same display as its lower-cased form: keys of lower-cased names are fixed points. */
  lemma LoweredNamesSameDetails(source: string, destination: string)
    ensures RouteKey(Lower(source), Lower(destination)) == RouteKey(source, destination)
    ensures RouteDetails(Lower(source), Lower(destination)) == RouteDetails(source, destination)
  {
    LowerIdempotent(source);
    LowerIdempotent(destination);
    RouteDetailsIgnoresCase(Lower(source), Lower(destination), source, destination);
  }

  /** Table position `i` lists the route from `a` to `b`. */
  predicate Lists(i: int, a: string, b: string) {
    0 <= i < |KnownRoutes| && KnownRoutes[i].from == a && KnownRoutes[i].to == b
  }

  /** A listed pair of names is found under its key text. */
  lemma ListedIsFound(i: int, source: string, destination: string)
    requires Lists(i, Lower(source), Lower(destination))
    ensures FindRoute(RouteKey(source, destination)) == Some(i)
  {
    var r := FindRoute(RouteKey(source, destination));
    assert KeyOf(KnownRoutes[i]) == RouteKey(source, destination);
    if r.Some? && r.value != i {
      KeysDistinct(i, r.value);
    }
  }

  /**
    The display read off the table by names instead of key texts: the entry
    listing the pair in this order, else the entry listing it the other way
    round, else the fallback.
   */
  lemma RouteDetailsByNames(source: string, destination: string)
    ensures forall i :: Lists(i, Lower(source), Lower(destination)) ==>
      RouteDetails(source, destination) == KnownRoutes[i].info
    ensures forall j :: Lists(j, Lower(destination), Lower(source)) ==>
      RouteDetails(source, destination) == KnownRoutes[j].info
    ensures (forall i :: !Lists(i, Lower(source), Lower(destination)) && !Lists(i, Lower(destination), Lower(source))) ==>
      RouteDetails(source, destination) == Render(Fallback(source, destination))
  {
    forall i | Lists(i, Lower(source), Lower(destination))
      ensures RouteDetails(source, destination) == KnownRoutes[i].info
    {
      ListedIsFound(i, source, destination);
    }
    forall j | Lists(j, Lower(destination), Lower(source))
      ensures RouteDetails(source, destination) == KnownRoutes[j].info
    {
      ListedIsFound(j, destination, source);
      if FindRoute(RouteKey(source, destination)).Some? {
        ForwardExcludesReverse(source, destination);
      }
    }
    var f := FindRoute(RouteKey(source, destination));
    var r := FindRoute(RouteKey(destination, source));
    if f.Some? {
      FoundMeansNames(source, destination);
      assert Lists(f.value, Lower(source), Lower(destination));
    } else if r.Some? {
      FoundMeansNames(destination, source);
      assert Lists(r.value, Lower(destination), Lower(source));
    }
  }

  /** From an hour on, the duration reads as whole hours and the remaining minutes. */
  lemma DurationInHours(minutes: nat, hours: nat, rest: nat)
    requires minutes == 60 * hours + rest && rest < 60 && hours >= 1
    ensures FormatDuration(minutes) == NatToString(hours) + " hr " + NatToString(rest) + " min"
  {
  }

  /**
    A distance display split into a run of digits, a point, a digit and
    " km" gives back the whole kilometres and the tenths: the split is the
    only one there is.
   */
  lemma DistanceReadsBack(tenthsKm: nat, whole: string, tenth: char)
    requires Digits(whole) && IsDigit(tenth)
    requires FormatDistance(tenthsKm) == whole + "." + [tenth] + " km"
    ensures ParseDecimal(whole) == tenthsKm / 10 && DigitValue(tenth) == tenthsKm % 10
  {
    var w := NatToString(tenthsKm / 10);
    ParseNatToString(tenthsKm / 10);
    var t := "." + [DigitChar(tenthsKm % 10)] + " km";
    var u := "." + [tenth] + " km";
    assert FormatDistance(tenthsKm) == w + t;
    assert whole + "." + [tenth] + " km" == whole + u;
    DigitsSplit(w, t, whole, u);
    assert t[1] == u[1];
  }

  /** Below an hour, a duration display split into a run of digits and " min" gives back the minutes. */
  lemma MinutesReadBack(minutes: nat, digits: string)
    requires minutes < 60 && Digits(digits)
    requires FormatDuration(minutes) == digits + " min"
    ensures ParseDecimal(digits) == minutes
  {
    ParseNatToString(minutes);
    DigitsSplit(NatToString(minutes), " min", digits, " min");
  }

  /** From an hour on, a duration display split as digits, " hr ", digits and " min" gives back the hours and the remaining minutes. */
  lemma HoursReadBack(minutes: nat, hours: string, rest: string)
    requires minutes >= 60 && Digits(hours) && Digits(rest)
    requires FormatDuration(minutes) == hours + " hr " + rest + " min"
    ensures ParseDecimal(hours) == minutes / 60 && ParseDecimal(rest) == minutes % 60
  {
    ParseNatToString(minutes / 60);
    ParseNatToString(minutes % 60);
    TwoNumbersSplit(NatToString(minutes / 60), NatToString(minutes % 60), hours, rest, " hr ", " min");
  }

  /** A known route in mixed case, in either order: 5.7 km and 15 min. */
  lemma DowntownToMarina()
    ensures RouteDetails("Downtown", "Marina") == RouteInfo("5.7 km", "15 min")
    ensures RouteDetails("Marina", "Downtown") == RouteInfo("5.7 km", "15 min")
  {
    assert Lower("Downtown") == "downtown";
    assert Lower("Marina") == "marina";
    assert Lists(2, Lower("Downtown"), Lower("Marina"));
    RouteDetailsByNames("Downtown", "Marina");
    RouteDetailsByNames("Marina", "Downtown");
  }

  /** Neither order of "Park X" and "Lake Y" is a row of the table. */
  lemma ParkLakeUnlisted()
    ensures Lower("Park X") == "park x" && Lower("Lake Y") == "lake y"
    ensures forall i :: !Lists(i, "park x", "lake y") && !Lists(i, "lake y", "park x")
  {
  }

  /** "Park X" and "Lake Y" have six UTF-16 code units each. */
  lemma ParkLakeBucket()
    ensures Bucket("Park X", "Lake Y") == 2
  {
    BucketOfBmp("Park X", "Lake Y");
  }

  /** A pair listed in neither order gets the fallback. */
  lemma UnlistedGetsFallback(source: string, destination: string)
    requires forall i :: !Lists(i, Lower(source), Lower(destination)) && !Lists(i, Lower(destination), Lower(source))
    ensures RouteDetails(source, destination) == Render(Fallback(source, destination))
  {
    RouteDetailsByNames(source, destination);
  }

  /** Bucket 2 reads as 12.0 km and 22 minutes (12.0 times 1.8 is 21.6). */
  lemma BucketTwoEstimate(source: string, destination: string)
    requires Bucket(source, destination) == 2
    ensures Render(Fallback(source, destination)) == RouteInfo("12.0 km", "22 min")
  {
    assert Fallback(source, destination) == Estimate(120, 22);
  }

  /** An unknown route of combined length 12: 12.0 km and 22 min. */
  lemma ParkToLake()
    ensures RouteDetails("Park X", "Lake Y") == RouteInfo("12.0 km", "22 min")
  {
    ParkLakeUnlisted();
    UnlistedGetsFallback("Park X", "Lake Y");
    ParkLakeBucket();
    BucketTwoEstimate("Park X", "Lake Y");
  }

  /** A single space is its own lower-case form and names no route of the table. */
  lemma SpacesUnlisted()
    ensures Lower(" ") == " "
    ensures forall i :: !Lists(i, " ", " ")
  {
  }

  /** Names of white space only are not trimmed: two single spaces get the bucket-2 estimate. */
  lemma SpacesGetEstimate()
    ensures RouteDetails(" ", " ") == RouteInfo("12.0 km", "22 min")
  {
    SpacesUnlisted();
    UnlistedGetsFallback(" ", " ");
    SpacesBucket();
    BucketTwoEstimate(" ", " ");
  }

  /** A single space is one UTF-16 code unit. */
  lemma SpacesBucket()
    ensures JsLength(" ") == 1 && Bucket(" ", " ") == 2
  {
    assert " "[1..] == [];
  }

  /** Bucket 3 reads as 15.5 km and 28 minutes (15.5 times 1.8 is 27.9). */
  lemma BucketThreeEstimate(source: string, destination: string)
    requires Bucket(source, destination) == 3
    ensures Render(Fallback(source, destination)) == RouteInfo("15.5 km", "28 min")
  {
    assert Fallback(source, destination) == Estimate(155, 28);
  }

  /** A character above U+FFFF is its own lower-case form, and neither order of it with "a" is a row of the table. */
  lemma AstralUnlisted()
    ensures Lower("\U{1F600}") == "\U{1F600}" && Lower("a") == "a"
    ensures forall i :: !Lists(i, "\U{1F600}", "a") && !Lists(i, "a", "\U{1F600}")
  {
  }

  /**
    Lengths are UTF-16 lengths: U+1F600 counts as two, so with "a" it falls
    in bucket 3 and gets 15.5 km and 28 min, not the 12.0 km of two
    one-character names.
   */
  lemma AstralCountsTwice()
    ensures JsLength("\U{1F600}") == 2
    ensures Bucket("\U{1F600}", "a") == 3
    ensures RouteDetails("\U{1F600}", "a") == RouteInfo("15.5 km", "28 min")
  {
    AstralBucket();
    AstralUnlisted();
    UnlistedGetsFallback("\U{1F600}", "a");
    BucketThreeEstimate("\U{1F600}", "a");
  }

  /** U+1F600 is two UTF-16 code units and "a" is one. */
  lemma AstralBucket()
    ensures JsLength("\U{1F600}") == 2 && JsLength("a") == 1
    ensures Bucket("\U{1F600}", "a") == 3
  {
    assert "\U{1F600}"[1..] == [] && "a"[1..] == [];
  }
}
