/** `fetch_tide_levels`: the Venice zone table, the loop that stores one IDW estimate per
    zone, and the handler's outcome for every shape of the station feed. */
module TideLevels {
  import opened Wrappers
  import Json
  import Idw
  import Stations

  /** A zone of Venice: its id, its name and its centroid in degrees. */
  datatype Zone = Zone(id: int, name: string, lat: real, lon: real)

  /** The 24 zones the handler estimates, in table order. */
  const Zones: seq<Zone> := [
    Zone(1, "S. Geremia - Zona 1", 45.4483, 12.3246),
    Zone(2, "S. Geremia - Zona 2", 45.4442, 12.3294),
    Zone(3, "S. Geremia - Zona 3", 45.4468, 12.3204),
    Zone(4, "S. Geremia - Zona 4", 45.4415, 12.3197),
    Zone(5, "S. Geremia - Zona 5", 45.4381, 12.3180),
    Zone(6, "S. Geremia - Zona 6", 45.4409, 12.3287),
    Zone(7, "S. Geremia - Zona 7", 45.4388, 12.3208),
    Zone(8, "Venezia Misericordia - Zona 8", 45.4469, 12.3317),
    Zone(9, "Venezia Misericordia - Zona 9", 45.4443, 12.3320),
    Zone(10, "Venezia Misericordia - Zona 10", 45.4424, 12.3366),
    Zone(11, "Venezia Misericordia - Zona 11", 45.4398, 12.3315),
    Zone(12, "Venezia Misericordia - Zona 12", 45.4379, 12.3334),
    Zone(13, "Venezia Misericordia - Zona 13", 45.4380, 12.3406),
    Zone(14, "Venezia Misericordia - Zona 14", 45.4367, 12.3479),
    Zone(15, "Punta Salute Canal Grande - Zona 15", 45.4355, 12.3459),
    Zone(16, "Punta Salute Canal Grande - Zona 16", 45.4353, 12.3359),
    Zone(17, "Punta Salute Canal Grande - Zona 17", 45.4334, 12.3312),
    Zone(18, "Punta Salute Canal Grande - Zona 18", 45.4316, 12.3281),
    Zone(19, "Punta Salute Canal Grande - Zona 19", 45.4372, 12.3249),
    Zone(20, "Punta Salute Canal Grande - Zona 20", 45.4373, 12.3217),
    Zone(21, "Punta Salute Canale Giudecca - Zona 21", 45.4295, 12.3318),
    Zone(22, "Punta Salute Canale Giudecca - Zona 22", 45.4304, 12.3233),
    Zone(23, "Punta Salute Canale Giudecca - Zona 23", 45.4260, 12.3370),
    Zone(24, "Punta Salute Canale Giudecca - Zona 24", 45.4256, 12.3235)
  ]

  /** The table has 24 zones numbered 1 to 24 in order, so the ids are distinct. */
  lemma ZoneTable()
    ensures |Zones| == 24
    ensures forall i :: 0 <= i < |Zones| ==> Zones[i].id == i + 1
    ensures forall i, j :: 0 <= i < j < |Zones| ==> Zones[i].id != Zones[j].id
  {
  }

  /** A document added to the `Maree` collection: timestamp, estimated height in metres,
      zone id. */
  datatype TideRecord = TideRecord(data: string, altezza: real, zonaId: int)

  /** The documents the zone loop adds, in zone order: one per zone whose estimate is not
      `None`. */
  function TideRecords(zones: seq<Zone>, stations: seq<Idw.Station>, timestamp: string): seq<TideRecord> {
    if zones == [] then []
    else
      var z := zones[|zones| - 1];
      TideRecords(zones[..|zones| - 1], stations, timestamp)
        + match Idw.Estimate(z.lat, z.lon, stations)
          case Some(h) => [TideRecord(timestamp, h, z.id)]
          case None => []
  }

  /** The zone loop: estimate each zone, skip a `None` estimate, add a document and count it.
      The documents added are returned in the order they were added. */
  method SaveTideEstimates(zones: seq<Zone>, stations: seq<Idw.Station>, timestamp: string)
    returns (written: seq<TideRecord>, savedCount: nat)
    ensures written == TideRecords(zones, stations, timestamp)
    ensures savedCount == |written| <= |zones|
  {
    written := [];
    savedCount := 0;
    var i := 0;
    while i < |zones|
      invariant 0 <= i <= |zones|
      invariant written == TideRecords(zones[..i], stations, timestamp)
      invariant savedCount == |written| <= i
    {
      var zone := zones[i];
      var estimated := Idw.EstimateTideIdw(zone.lat, zone.lon, stations);
      TideRecordsStep(zones, i, stations, timestamp, estimated);
      if estimated.Some? {
        written := written + [TideRecord(timestamp, estimated.value, zone.id)];
        savedCount := savedCount + 1;
      }
      i := i + 1;
    }
    assert zones[..i] == zones;
  }

  /** One more zone adds its document exactly when its estimate exists. */
  lemma TideRecordsStep(zones: seq<Zone>, i: nat, stations: seq<Idw.Station>, timestamp: string,
                        estimated: Option<real>)
    requires i < |zones| && estimated == Idw.Estimate(zones[i].lat, zones[i].lon, stations)
    ensures estimated.Some? ==>
      (TideRecords(zones[..i + 1], stations, timestamp)
         == TideRecords(zones[..i], stations, timestamp) + [TideRecord(timestamp, estimated.value, zones[i].id)])
    ensures estimated.None? ==>
      (TideRecords(zones[..i + 1], stations, timestamp) == TideRecords(zones[..i], stations, timestamp))
  {
    assert zones[..i + 1][..i] == zones[..i];
    assert zones[..i + 1][i] == zones[i];
  }

  // ---------------------------------------------------------------------------------------
  // Properties of the zone loop

  /** Every document carries the shared timestamp and comes from a zone whose estimate is
      exactly its height; there are no more documents than zones. */
  lemma {:induction false} TideRecordsFromZones(zones: seq<Zone>, stations: seq<Idw.Station>, timestamp: string)
    ensures |TideRecords(zones, stations, timestamp)| <= |zones|
    ensures forall r :: r in TideRecords(zones, stations, timestamp) ==>
      r.data == timestamp
      && exists z :: z in zones && z.id == r.zonaId && Idw.Estimate(z.lat, z.lon, stations) == Some(r.altezza)
    decreases |zones|
  {
    if zones != [] {
      var init := zones[..|zones| - 1];
      TideRecordsFromZones(init, stations, timestamp);
      assert forall z :: z in init ==> z in zones;
      assert zones[|zones| - 1] in zones;
    }
  }

  /** With at least one station every zone gets its document, in zone order. */
  lemma {:induction false} TideRecordsAllZones(zones: seq<Zone>, stations: seq<Idw.Station>, timestamp: string)
    requires stations != []
    ensures |TideRecords(zones, stations, timestamp)| == |zones|
    ensures forall i :: 0 <= i < |zones| ==>
      Idw.Estimate(zones[i].lat, zones[i].lon, stations).Some?
      && TideRecords(zones, stations, timestamp)[i]
         == TideRecord(timestamp, Idw.Estimate(zones[i].lat, zones[i].lon, stations).value, zones[i].id)
    decreases |zones|
  {
    if zones != [] {
      var init := zones[..|zones| - 1];
      var z := zones[|zones| - 1];
      TideRecordsAllZones(init, stations, timestamp);
      Idw.EstimateNoneIffEmpty(z.lat, z.lon, stations);
      forall i | 0 <= i < |zones|
        ensures Idw.Estimate(zones[i].lat, zones[i].lon, stations).Some?
      {
        Idw.EstimateNoneIffEmpty(zones[i].lat, zones[i].lon, stations);
      }
      assert forall i :: 0 <= i < |init| ==> init[i] == zones[i];
    }
  }

  /** Without stations no zone gets a document. */
  lemma {:induction false} TideRecordsNoStations(zones: seq<Zone>, timestamp: string)
    ensures TideRecords(zones, [], timestamp) == []
    decreases |zones|
  {
    if zones != [] {
      var z := zones[|zones| - 1];
      TideRecordsNoStations(zones[..|zones| - 1], timestamp);
      Idw.EstimateNoneIffEmpty(z.lat, z.lon, []);
    }
  }

  /** With at least one station, a table of 24 zones numbered 1 to 24 in order, as `Zones` is
      (lemma `ZoneTable`), is stored whole: zone `i + 1` in position `i`. */
  lemma SavesEveryZone(zones: seq<Zone>, stations: seq<Idw.Station>, timestamp: string)
    requires |zones| == 24 && forall i :: 0 <= i < |zones| ==> zones[i].id == i + 1
    requires stations != []
    ensures |TideRecords(zones, stations, timestamp)| == 24
    ensures forall i :: 0 <= i < 24 ==> TideRecords(zones, stations, timestamp)[i].zonaId == i + 1
  {
    TideRecordsAllZones(zones, stations, timestamp);
  }

  // ---------------------------------------------------------------------------------------
  // The handler

  /** The handler's answer: status 200 with the counts of its success message, or status
      500 for each of its error returns. */
  datatype TideOutcome =
    | ApiError(apiStatus: int)    // "API Error: <status>"
    | NotAList                    // "Formato dati inatteso (non è una lista)"
    | NoValidStations             // "Nessuna stazione con dati validi trovata"
    | InternalError               // "Errore interno: ..." from the outer `except`
    | Saved(savedCount: nat, zoneCount: nat, stationCount: nat)  // "Successo! Salvati ..."

  function HttpStatus(o: TideOutcome): (status: int)
    ensures status == 200 <==> o.Saved?
    ensures status == 200 || status == 500
  {
    if o.Saved? then 200 else 500
  }

  /** `fetch_tide_levels`. The HTTP response is given as its status and its decoded body
      (`None` when `response.json()` fails); the clock reading is the `timestamp`. Returns the
      outcome and the documents added to `Maree`, in order. */
  method FetchTideLevels(apiStatus: int, body: Option<Json.Value>, timestamp: string)
    returns (outcome: TideOutcome, written: seq<TideRecord>)
    ensures outcome.Saved? <==> written != []
    ensures HttpStatus(outcome) == 200 <==> written != []
    ensures apiStatus != 200 ==> outcome == ApiError(apiStatus)
    ensures apiStatus == 200 && body.None? ==> outcome == InternalError
    ensures apiStatus == 200 && body.Some? && !body.value.List? ==> outcome == NotAList
    ensures apiStatus == 200 && body.Some? && body.value.List? ==>
      match Stations.Sanitize(body.value.elems)
      case CoordinateTypeError => outcome == InternalError
      case Stations(ss) =>
        if ss == [] then outcome == NoValidStations
        else outcome == Saved(24, 24, |ss|) && written == TideRecords(Zones, ss, timestamp)
  {
    written := [];
    if apiStatus != 200 {
      return ApiError(apiStatus), written;
    }
    if body.None? {
      return InternalError, written;
    }
    if !body.value.List? {
      return NotAList, written;
    }
    var sanitized := Stations.SanitizeStations(body.value.elems);
    if sanitized.CoordinateTypeError? {
      return InternalError, written;
    }
    var stations := sanitized.stations;
    if stations == [] {
      return NoValidStations, written;
    }
    var savedCount;
    written, savedCount := SaveTideEstimates(Zones, stations, timestamp);
    ZoneTable();
    SavesEveryZone(Zones, stations, timestamp);
    outcome := Saved(savedCount, |Zones|, |stations|);
  }
}
