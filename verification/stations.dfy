/** Sanitisation of the raw tide-station feed inside `fetch_tide_levels`: every item of the
    decoded JSON list becomes a `Station`, is skipped, or (through an exception the per-item
    handler does not catch) aborts the whole request. */
module Stations {
  import opened Wrappers
  import opened Json
  import PyText
  import Idw

  /** What the body of the per-item `try` does with one feed item. */
  datatype ItemOutcome =
    | Keep(station: Idw.Station)   // appended to `stations`
    | Skip                         // `ValueError`/`AttributeError` caught, or a zero coordinate
    | Abort                        // `TypeError` from `float(None)` etc.: not caught per item

  /** `float(item.get(key, 0))` for a coordinate field of an object item. */
  function Coord(item: Value, key: string): (r: Eval<real>)
    requires item.Object?
    ensures key !in item.fields ==> r == Ok(0.0)
    ensures key in item.fields ==> r == ToFloat(item.fields[key])
  {
    ToFloat(Get(item, key, Num(0.0)).value)
  }

  /** The locale normalisation of the `valore` text: drop the unit " m", turn the decimal
      comma into a point, strip surrounding whitespace. */
  function Normalize(s: string): string {
    PyText.Strip(PyText.Replace(PyText.Replace(s, " m", ""), ",", "."))
  }

  /** `float(valore_raw.replace(' m', '').replace(',', '.').strip())`: `None` when the value is
      not a string (`AttributeError`) or does not parse (`ValueError`). */
  function Height(item: Value): (h: Option<real>)
    requires item.Object?
  {
    match Get(item, "valore", Str("")).value
    case Str(s) => PyText.ParseFloat(Normalize(s))
    case _ => None
  }

  /** `float('')` is a `ValueError`: an empty height does not parse. */
  lemma EmptyHeightRejected(e: string)
    requires e == ""
    ensures PyText.ParseFloat(Normalize(e)).None?
  {
    assert PyText.Replace(e, " m", "") == e;
    assert PyText.Replace(e, ",", ".") == e;
    assert PyText.Strip(e) == e;
    assert PyText.ParseUnsigned(e).None? by {
      assert PyText.DotIndex(e) == 0;
    }
  }

  /** A height is read only from a `valore` that is present and a string: a missing one
      defaults to '' and fails to parse, any other type has no `.replace`. */
  lemma HeightNeedsString(item: Value)
    requires item.Object?
    ensures Height(item).Some? ==> "valore" in item.fields && item.fields["valore"].Str?
    ensures "valore" in item.fields && item.fields["valore"].Str? ==>
      Height(item) == PyText.ParseFloat(Normalize(item.fields["valore"].s))
  {
    if "valore" !in item.fields {
      EmptyHeightRejected("");
    }
  }

  /** Is `r` a `TypeError`? */
  predicate IsTypeError<T>(r: Eval<T>) {
    r.Raise? && r.error == TypeError
  }

  /** One iteration of the item loop, in the code's evaluation order: latitude, longitude,
      value, then the test that neither coordinate is exactly 0. */
  function ProcessItem(item: Value): (r: ItemOutcome)
    ensures r.Keep? ==> r.station.lat != 0.0 && r.station.lon != 0.0
  {
    if !item.Object? then Skip  // `item.get` raises AttributeError
    else
      match Coord(item, "latDDN")
      case Raise(e) => if e == TypeError then Abort else Skip
      case Ok(lat) =>
        match Coord(item, "lonDDE")
        case Raise(e) => if e == TypeError then Abort else Skip
        case Ok(lon) =>
          match Height(item)
          case None => Skip
          case Some(h) => if lat != 0.0 && lon != 0.0 then Keep(Idw.Station(lat, lon, h)) else Skip
  }

  /** The three outcomes of one item: anything but an object is skipped; the item aborts
      exactly when a coordinate raises `TypeError` before any other exception; it is kept
      exactly when both coordinates and the height convert and neither coordinate is 0, and
      then the station holds those three numbers. */
  lemma ProcessItemCases(item: Value)
    ensures !item.Object? ==> ProcessItem(item) == Skip
    ensures ProcessItem(item).Abort? <==> (item.Object?
      && (IsTypeError(Coord(item, "latDDN"))
          || (Coord(item, "latDDN").Ok? && IsTypeError(Coord(item, "lonDDE")))))
    ensures ProcessItem(item).Keep? <==> (item.Object?
      && Coord(item, "latDDN").Ok? && Coord(item, "lonDDE").Ok? && Height(item).Some?
      && Coord(item, "latDDN").value != 0.0 && Coord(item, "lonDDE").value != 0.0)
    ensures ProcessItem(item).Keep? ==>
      ProcessItem(item).station
        == Idw.Station(Coord(item, "latDDN").value, Coord(item, "lonDDE").value, Height(item).value)
  {
  }

  /** The loop's result: the kept stations in feed order, or the uncaught `TypeError`. */
  datatype Sanitized = Stations(stations: seq<Idw.Station>) | CoordinateTypeError

  /** The outcome of every item, in feed order. */
  function Outcomes(items: seq<Value>): (os: seq<ItemOutcome>)
    ensures |os| == |items|
    ensures forall i :: 0 <= i < |items| ==> os[i] == ProcessItem(items[i])
  {
    seq(|items|, i requires 0 <= i < |items| => ProcessItem(items[i]))
  }

  /** Folding the outcomes from the front: keep appends, skip does nothing, abort ends it. */
  function Collect(os: seq<ItemOutcome>): Sanitized {
    if os == [] then Stations([])
    else
      match Collect(os[..|os| - 1])
      case CoordinateTypeError => CoordinateTypeError
      case Stations(ss) =>
        match os[|os| - 1]
        case Keep(s) => Stations(ss + [s])
        case Skip => Stations(ss)
        case Abort => CoordinateTypeError
  }

  /** The item loop over the whole feed. */
  function Sanitize(items: seq<Value>): Sanitized {
    Collect(Outcomes(items))
  }

  /** The item loop of `fetch_tide_levels`: append kept stations, skip the rest, and leave
      the loop on the first uncaught exception. */
  method SanitizeStations(items: seq<Value>) returns (r: Sanitized)
    ensures r == Sanitize(items)
  {
    ghost var os := Outcomes(items);
    var stations: seq<Idw.Station> := [];
    var i := 0;
    while i < |items|
      invariant 0 <= i <= |items|
      invariant Collect(os[..i]) == Stations(stations)
    {
      var outcome := ProcessItem(items[i]);
      assert os[i] == outcome;
      CollectStep(os, i);
      if outcome.Abort? {
        AbortFromPrefix(os, i + 1);
        return CoordinateTypeError;
      } else if outcome.Keep? {
        stations := stations + [outcome.station];
      }
      i := i + 1;
    }
    assert os[..i] == os;
    return Stations(stations);
  }

  // ---------------------------------------------------------------------------------------
  // Properties of the sanitisation

  /** One more outcome: a keep appends its station, a skip changes nothing, an abort ends
      the fold. */
  lemma CollectStep(os: seq<ItemOutcome>, i: nat)
    requires i < |os| && Collect(os[..i]).Stations?
    ensures os[i].Keep? ==> Collect(os[..i + 1]) == Stations(Collect(os[..i]).stations + [os[i].station])
    ensures os[i].Skip? ==> Collect(os[..i + 1]) == Collect(os[..i])
    ensures os[i].Abort? ==> Collect(os[..i + 1]) == CoordinateTypeError
  {
    assert os[..i + 1][..i] == os[..i];
    assert os[..i + 1][i] == os[i];
  }

  /** An abort within the first `n` outcomes is the result of the whole fold. */
  lemma AbortFromPrefix(os: seq<ItemOutcome>, n: nat)
    requires n <= |os| && Collect(os[..n]) == CoordinateTypeError
    ensures Collect(os) == CoordinateTypeError
  {
    AbortPersists(os[..n], os[n..]);
    assert os[..n] + os[n..] == os;
  }

  /** Once an item has aborted the loop, later items change nothing. */
  lemma {:induction false} AbortPersists(a: seq<ItemOutcome>, b: seq<ItemOutcome>)
    requires Collect(a) == CoordinateTypeError
    ensures Collect(a + b) == CoordinateTypeError
    decreases |b|
  {
    if b == [] {
      assert a + b == a;
    } else {
      AbortPersists(a, b[..|b| - 1]);
      assert (a + b)[..|a + b| - 1] == a + b[..|b| - 1];
    }
  }

  /** The fold composes over concatenation. */
  lemma {:induction false} CollectAppend(a: seq<ItemOutcome>, b: seq<ItemOutcome>)
    ensures Collect(a + b).CoordinateTypeError?
      <==> Collect(a).CoordinateTypeError? || Collect(b).CoordinateTypeError?
    ensures Collect(a).Stations? && Collect(b).Stations? ==>
      Collect(a + b) == Stations(Collect(a).stations + Collect(b).stations)
    decreases |b|
  {
    if b == [] {
      assert a + b == a;
    } else {
      var b' := b[..|b| - 1];
      CollectAppend(a, b');
      assert (a + b)[..|a + b| - 1] == a + b';
      assert (a + b)[|a + b| - 1] == b[|b| - 1];
      if Collect(a).Stations? && Collect(b').Stations? {
        var sa, sb := Collect(a).stations, Collect(b').stations;
        match b[|b| - 1]
        case Keep(s) => assert sa + sb + [s] == sa + (sb + [s]);
        case Skip =>
        case Abort =>
      }
    }
  }

  /** The loop composes over concatenation: the stations of `a + b` are those of `a` followed
      by those of `b`, and it aborts exactly when one of the halves does. */
  lemma SanitizeAppend(a: seq<Value>, b: seq<Value>)
    ensures Sanitize(a + b).CoordinateTypeError?
      <==> Sanitize(a).CoordinateTypeError? || Sanitize(b).CoordinateTypeError?
    ensures Sanitize(a).Stations? && Sanitize(b).Stations? ==>
      Sanitize(a + b) == Stations(Sanitize(a).stations + Sanitize(b).stations)
  {
    assert Outcomes(a + b) == Outcomes(a) + Outcomes(b);
    CollectAppend(Outcomes(a), Outcomes(b));
  }

  /** The fold aborts exactly when some outcome is an abort. */
  lemma {:induction false} CollectAbortIff(os: seq<ItemOutcome>)
    ensures Collect(os).CoordinateTypeError? <==> exists i :: 0 <= i < |os| && os[i].Abort?
    decreases |os|
  {
    if os != [] {
      var init := os[..|os| - 1];
      CollectAbortIff(init);
      assert forall i :: 0 <= i < |init| ==> init[i] == os[i];
      if exists i :: 0 <= i < |os| && os[i].Abort? {
        var i :| 0 <= i < |os| && os[i].Abort?;
        if i < |init| {
          assert init[i].Abort?;
        }
      }
    }
  }

  /** The loop aborts exactly when some item raises the uncaught `TypeError`. */
  lemma SanitizeAbortIff(items: seq<Value>)
    ensures Sanitize(items).CoordinateTypeError?
      <==> exists i :: 0 <= i < |items| && ProcessItem(items[i]).Abort?
  {
    CollectAbortIff(Outcomes(items));
  }

  /** Every collected station is a kept outcome, and there are no more than outcomes. */
  lemma {:induction false} CollectKept(os: seq<ItemOutcome>)
    requires Collect(os).Stations?
    ensures |Collect(os).stations| <= |os|
    ensures forall s :: s in Collect(os).stations ==> Keep(s) in os
    decreases |os|
  {
    if os != [] {
      var init := os[..|os| - 1];
      CollectKept(init);
      assert forall s :: Keep(s) in init ==> Keep(s) in os;
    }
  }

  /** Every kept station came from some item, with a non-zero latitude and longitude; and no
      more stations are kept than there are items. */
  lemma SanitizeKeptStations(items: seq<Value>)
    requires Sanitize(items).Stations?
    ensures |Sanitize(items).stations| <= |items|
    ensures forall s :: s in Sanitize(items).stations ==>
      s.lat != 0.0 && s.lon != 0.0 && exists i :: 0 <= i < |items| && ProcessItem(items[i]) == Keep(s)
  {
    var os := Outcomes(items);
    CollectKept(os);
    forall s | s in Sanitize(items).stations
      ensures exists i :: 0 <= i < |items| && ProcessItem(items[i]) == Keep(s)
    {
      var i :| 0 <= i < |os| && os[i] == Keep(s);
      assert ProcessItem(items[i]) == Keep(s);
    }
  }

  /** When every outcome is a keep, the fold holds every station in order. */
  lemma {:induction false} CollectAllKept(os: seq<ItemOutcome>)
    requires forall i :: 0 <= i < |os| ==> os[i].Keep?
    ensures Collect(os).Stations?
    ensures |Collect(os).stations| == |os|
    ensures forall i :: 0 <= i < |os| ==> Collect(os).stations[i] == os[i].station
    decreases |os|
  {
    if os != [] {
      var init := os[..|os| - 1];
      assert forall i :: 0 <= i < |init| ==> init[i] == os[i];
      CollectAllKept(init);
    }
  }

  /** When every item is kept, every item yields its station, in feed order. */
  lemma SanitizeAllKept(items: seq<Value>)
    requires forall i :: 0 <= i < |items| ==> ProcessItem(items[i]).Keep?
    ensures Sanitize(items).Stations?
    ensures |Sanitize(items).stations| == |items|
    ensures forall i :: 0 <= i < |items| ==> Sanitize(items).stations[i] == ProcessItem(items[i]).station
  {
    CollectAllKept(Outcomes(items));
  }

  /** A kept outcome's station sits in the fold's result between the stations kept before it
      and those kept after it. */
  lemma CollectKeptAt(os: seq<ItemOutcome>, i: nat)
    requires i < |os| && Collect(os).Stations? && os[i].Keep?
    ensures Collect(os[..i]).Stations? && Collect(os[i + 1..]).Stations?
    ensures Collect(os).stations == Collect(os[..i]).stations + [os[i].station] + Collect(os[i + 1..]).stations
  {
    SplitAt(os, i);
    CollectAround(os[..i], os[i], os[i + 1..]);
  }

  /** A sequence is its prefix, the element at `i` and its suffix. */
  lemma SplitAt<T>(xs: seq<T>, i: nat)
    requires i < |xs|
    ensures xs == xs[..i] + [xs[i]] + xs[i + 1..]
  {
  }

  /** The fold around one kept outcome. */
  lemma CollectAround(a: seq<ItemOutcome>, o: ItemOutcome, b: seq<ItemOutcome>)
    requires o.Keep? && Collect(a + [o] + b).Stations?
    ensures Collect(a).Stations? && Collect(b).Stations?
    ensures Collect(a + [o] + b).stations == Collect(a).stations + [o.station] + Collect(b).stations
  {
    CollectAppend(a + [o], b);
    CollectAppend(a, [o]);
    CollectKeep(o);
  }

  /** A single kept outcome folds to that one station. */
  lemma CollectKeep(o: ItemOutcome)
    requires o.Keep?
    ensures Collect([o]) == Stations([o.station])
  {
    assert [o][..0] == [];
  }

  /** A kept item's station is in the result at its place: after the stations kept from the
      items before it and before those kept from the items after it. */
  lemma KeptAppears(items: seq<Value>, i: nat)
    requires i < |items| && Sanitize(items).Stations? && ProcessItem(items[i]).Keep?
    ensures Sanitize(items[..i]).Stations? && Sanitize(items[i + 1..]).Stations?
    ensures Sanitize(items).stations
      == Sanitize(items[..i]).stations + [ProcessItem(items[i]).station] + Sanitize(items[i + 1..]).stations
  {
    var os := Outcomes(items);
    OutcomesAround(items, i);
    CollectKeptAt(os, i);
  }

  /** The outcomes of the items before and after `i` are the outcomes before and after `i`. */
  lemma OutcomesAround(items: seq<Value>, i: nat)
    requires i < |items|
    ensures Outcomes(items[..i]) == Outcomes(items)[..i]
    ensures Outcomes(items[i + 1..]) == Outcomes(items)[i + 1..]
  {
  }

  // ---------------------------------------------------------------------------------------
  // Properties of one item

  /** After normalisation no decimal comma is left. */
  lemma NormalizeNoComma(s: string)
    ensures forall i :: 0 <= i < |Normalize(s)| ==> Normalize(s)[i] != ','
  {
    var t := PyText.Replace(s, " m", "");
    var u := PyText.Replace(t, ",", ".");
    PyText.ReplaceChar(t, ',', '.');
    assert forall i :: 0 <= i < |u| ==> u[i] != ',';
    PyText.StripKeepsAbsent(u, ',');
  }

  /** Normalisation only removes characters: the text handed to `float` is never longer
      than the raw value. */
  lemma NormalizeNoLonger(s: string)
    ensures |Normalize(s)| <= |s|
  {
    var t := PyText.Replace(s, " m", "");
    var u := PyText.Replace(t, ",", ".");
    PyText.ReplaceByEmptyShrinks(s, " m");
    PyText.ReplaceChar(t, ',', '.');
    var lo, hi := PyText.StripIsTrimmedSlice(u);
  }

  /** The unit suffix goes: "1,23 m" becomes "1,23". */
  lemma DropUnitExample()
    ensures PyText.Replace("1,23 m", " m", "") == "1,23"
  {
    var s := "1,23 m";
    assert s[4..][..2] == " m" && s[4..][2..] == "";
    assert PyText.Replace(s[4..], " m", "") == "";
    assert s[3..][..2] != " m" && s[3..][1..] == s[4..];
    assert PyText.Replace(s[3..], " m", "") == "3";
    assert s[2..][..2] != " m" && s[2..][1..] == s[3..];
    assert PyText.Replace(s[2..], " m", "") == "23";
    assert s[1..][..2] != " m" && s[1..][1..] == s[2..];
    assert PyText.Replace(s[1..], " m", "") == ",23";
    assert s[..2] != " m";
  }

  /** The decimal comma becomes a point: "1,23" becomes "1.23". */
  lemma DecimalPointExample()
    ensures PyText.Replace("1,23", ",", ".") == "1.23"
  {
    var t := "1,23";
    PyText.ReplaceChar(t, ',', '.');
  }

  /** The digit strings of the example. */
  lemma DigitsExample(one: string, twentyThree: string)
    requires one == "1" && twentyThree == "23"
    ensures PyText.AllDigits(one) && PyText.AllDigits(twentyThree)
    ensures PyText.DecimalValue(one, twentyThree) == 1.23
  {
    var two := twentyThree[..1];
    assert two[..0] == "" && one[..0] == "";
    assert PyText.DigitsValue(two) == 2;
    assert twentyThree[..|twentyThree| - 1] == two && twentyThree[1] == '3';
    assert PyText.DigitsValue(twentyThree) == 23;
    assert PyText.DigitsValue(one) == 1;
    assert PyText.Pow10(2) == 100;
  }

  /** "1.23" reads as 1.23. */
  lemma ParseExample(u: string)
    requires u == "1.23"
    ensures PyText.ParseFloat(u) == Some(1.23)
  {
    PyText.StripUnchanged(u);
    var w, f := u[..1], u[2..];
    assert u == w + "." + f;
    DigitsExample(w, f);
    PyText.ParseUnsignedPoint(w, f);
    assert !(u[0] == '+' || u[0] == '-');
  }

  /** The feed's "1,23 m" reads as 1.23 metres. */
  lemma NormalizeExample(s: string)
    requires s == "1,23 m"
    ensures Normalize(s) == "1.23"
    ensures PyText.ParseFloat(Normalize(s)) == Some(1.23)
  {
    DropUnitExample();
    DecimalPointExample();
    PyText.StripUnchanged("1.23");
    ParseExample(Normalize(s));
  }

  /** A feed item as published: coordinates as numbers, the height as "1,23 m". */
  lemma ProcessItemExample(fields: map<string, Value>)
    requires fields == map["latDDN" := Num(45.43), "lonDDE" := Num(12.33), "valore" := Str("1,23 m")]
    ensures ProcessItem(Object(fields)) == Keep(Idw.Station(45.43, 12.33, 1.23))
  {
    var item := Object(fields);
    assert Coord(item, "latDDN") == Ok(45.43);
    assert Coord(item, "lonDDE") == Ok(12.33);
    var v := fields["valore"];
    assert v == Str("1,23 m");
    NormalizeExample(v.s);
    assert Height(item) == Some(1.23);
  }

  /** A height that is not a number is skipped, and so is a height that is not a string. */
  lemma ProcessItemBadHeight(lat: real, lon: real, v: Value)
    requires !v.Str? || PyText.ParseFloat(Normalize(v.s)).None?
    ensures ProcessItem(Object(map["latDDN" := Num(lat), "lonDDE" := Num(lon), "valore" := v])) == Skip
  {
  }

  /** A missing coordinate reads as 0 and the item is skipped, whatever else it holds. */
  lemma ProcessItemMissingLatitude(fields: map<string, Value>)
    requires "latDDN" !in fields
    ensures !ProcessItem(Object(fields)).Keep?
  {
  }

  /** A `null` latitude is not skipped: `float(None)` raises `TypeError`, which escapes the
      per-item handler and aborts the whole loop. */
  lemma NullLatitudeAborts(before: seq<Value>, fields: map<string, Value>, after: seq<Value>)
    requires "latDDN" in fields && fields["latDDN"] == Null
    ensures Sanitize(before + [Object(fields)] + after) == CoordinateTypeError
  {
    var items := before + [Object(fields)] + after;
    assert items[|before|] == Object(fields);
    SanitizeAbortIff(items);
  }
}
