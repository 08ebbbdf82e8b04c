/** `fetch_venice_air_quality`: picking the Universal AQI entry ("uaqi") out of the
    `indexes` list of the Air Quality response, and the handler around that choice. */
module AirQuality {
  import opened Wrappers
  import opened Json

  /** `idx.get('code') == 'uaqi'` for an object entry. */
  predicate IsUaqi(idx: Value) {
    idx.Object? && "code" in idx.fields && idx.fields["code"] == Str("uaqi")
  }

  /** The scan of the `for` loop: the index of the first "uaqi" entry (`None` when there is
      none), or the `AttributeError` of `idx.get` on an entry that is not an object. */
  function FindUaqi(idxs: seq<Value>): (r: Eval<Option<nat>>)
    ensures r.Raise? ==> r.error == AttributeError
    ensures r.Raise? ==>
      exists j :: 0 <= j < |idxs| && !idxs[j].Object?
        && forall i :: 0 <= i < j ==> idxs[i].Object? && !IsUaqi(idxs[i])
    ensures r == Ok(None) <==> forall i :: 0 <= i < |idxs| ==> idxs[i].Object? && !IsUaqi(idxs[i])
    ensures r.Ok? && r.value.Some? ==>
      r.value.value < |idxs| && IsUaqi(idxs[r.value.value])
        && forall i :: 0 <= i < r.value.value ==> idxs[i].Object? && !IsUaqi(idxs[i])
  {
    if idxs == [] then Ok(None)
    else if !idxs[0].Object? then Raise(AttributeError)
    else if IsUaqi(idxs[0]) then Ok(Some(0))
    else
      match FindUaqi(idxs[1..])
      case Raise(e) => Raise(e)
      case Ok(None) => Ok(None)
      case Ok(Some(k)) => Ok(Some(k + 1))
  }

  /** What the selection leaves: no entries at all, the uncaught `AttributeError`, or the
      entry whose `aqi` and `category` are read. */
  datatype Selection = NoIndexes | SelectionError | Chosen(entry: Value)

  /** `aqi_data = indexes[0]`, then the first "uaqi" entry replaces it. */
  function SelectAqi(indexes: seq<Value>): Selection {
    if indexes == [] then NoIndexes
    else
      match FindUaqi(indexes)
      case Raise(_) => SelectionError
      case Ok(None) => Chosen(indexes[0])
      case Ok(Some(k)) => Chosen(indexes[k])
  }

  /** The selection loop of `fetch_venice_air_quality`, with its early `break`. */
  method SelectAqiIndex(indexes: seq<Value>) returns (r: Selection)
    ensures r == SelectAqi(indexes)
  {
    if indexes == [] {
      return NoIndexes;
    }
    var aqiData := indexes[0];
    var i := 0;
    while i < |indexes|
      invariant 0 <= i <= |indexes|
      invariant forall j :: 0 <= j < i ==> indexes[j].Object? && !IsUaqi(indexes[j])
    {
      var idx := indexes[i];
      if !idx.Object? {
        FindUaqiRaises(indexes, i);
        return SelectionError;
      }
      if IsUaqi(idx) {
        FindUaqiFinds(indexes, i);
        aqiData := idx;
        break;
      }
      i := i + 1;
    }
    return Chosen(aqiData);
  }

  /** A non-object entry before any "uaqi" entry raises. */
  lemma FindUaqiRaises(idxs: seq<Value>, j: nat)
    requires j < |idxs| && !idxs[j].Object?
    requires forall i :: 0 <= i < j ==> idxs[i].Object? && !IsUaqi(idxs[i])
    ensures FindUaqi(idxs).Raise?
  {
  }

  /** A "uaqi" entry preceded only by other object entries is the one found. */
  lemma FindUaqiFinds(idxs: seq<Value>, k: nat)
    requires k < |idxs| && IsUaqi(idxs[k])
    requires forall i :: 0 <= i < k ==> idxs[i].Object? && !IsUaqi(idxs[i])
    ensures FindUaqi(idxs) == Ok(Some(k))
  {
  }

  // ---------------------------------------------------------------------------------------
  // Properties of the selection

  /** The chosen entry is an entry of the list and an object, so the `.get('aqi')` and
      `.get('category')` that follow cannot raise. It is the first "uaqi" entry, or the first
      entry when there is none. */
  lemma SelectAqiChosen(indexes: seq<Value>)
    requires SelectAqi(indexes).Chosen?
    ensures SelectAqi(indexes).entry in indexes
    ensures SelectAqi(indexes).entry.Object?
    ensures (exists k :: 0 <= k < |indexes| && IsUaqi(indexes[k])) ==>
      exists k :: 0 <= k < |indexes| && SelectAqi(indexes).entry == indexes[k]
        && IsUaqi(indexes[k]) && forall i :: 0 <= i < k ==> !IsUaqi(indexes[i])
    ensures (forall k :: 0 <= k < |indexes| ==> indexes[k].Object? && !IsUaqi(indexes[k])) ==>
      SelectAqi(indexes).entry == indexes[0]
  {
  }

  /** The selection fails exactly when a non-object entry comes before any "uaqi" entry. */
  lemma SelectAqiErrorIff(indexes: seq<Value>)
    ensures SelectAqi(indexes) == SelectionError <==>
      exists j :: 0 <= j < |indexes| && !indexes[j].Object?
        && forall i :: 0 <= i < j ==> indexes[i].Object? && !IsUaqi(indexes[i])
  {
    if exists j :: 0 <= j < |indexes| && !indexes[j].Object?
        && forall i :: 0 <= i < j ==> indexes[i].Object? && !IsUaqi(indexes[i])
    {
      var j :| 0 <= j < |indexes| && !indexes[j].Object?
        && forall i :: 0 <= i < j ==> indexes[i].Object? && !IsUaqi(indexes[i]);
      FindUaqiRaises(indexes, j);
    }
  }

  /** Whatever follows a leading "uaqi" entry is never looked at. */
  lemma LeadingUaqiWins(u: Value, rest: seq<Value>)
    requires IsUaqi(u)
    ensures SelectAqi([u] + rest) == Chosen(u)
  {
    FindUaqiFinds([u] + rest, 0);
  }

  // ---------------------------------------------------------------------------------------
  // The handler

  /** Python truthiness of a decoded JSON value (`if not indexes`). */
  predicate Truthy(v: Value) {
    match v
    case Null => false
    case Bool(b) => b
    case Num(n) => n != 0.0
    case Str(s) => s != ""
    case List(elems) => elems != []
    case Object(fields) => fields != map[]
  }

  /** A document added to "Qualita dell'aria": timestamp, AQI value, category (`None`, here
      `Null`, when the entry lacks the key). */
  datatype AqiRecord = AqiRecord(data: string, valore: Value, categoria: Value)

  /** The handler's answer: status 200 with the stored record, or status 500. */
  datatype AqiOutcome =
    | MissingApiKey              // "Errore: GOOGLE_MAPS_API_KEY mancante"
    | ApiError(apiStatus: int)   // "Errore API Air Quality: <status> - ..."
    | NoIndexFound               // "Nessun indice AQI trovato nella risposta"
    | InternalError              // "Errore interno: ..." from the outer `except`
    | Saved(record: AqiRecord)   // "Successo! AQI: ..."

  /** `fetch_venice_air_quality`. The environment's API key is `apiKey` (`None` when unset);
      the HTTP response is given as its status and its decoded body (`None` when
      `response.json()` fails); the clock reading is the `timestamp`. Returns the outcome and
      the documents added, in order. */
  method FetchAirQuality(apiKey: Option<string>, apiStatus: int, body: Option<Value>, timestamp: string)
    returns (outcome: AqiOutcome, written: seq<AqiRecord>)
    ensures outcome.Saved? ==> written == [outcome.record]
    ensures !outcome.Saved? ==> written == []
    ensures apiKey.None? || apiKey == Some("") ==> outcome == MissingApiKey
    ensures apiKey.Some? && apiKey.value != "" ==>
      if apiStatus != 200 then outcome == ApiError(apiStatus)
      else if body.None? || !body.value.Object? then outcome == InternalError
      else
        var indexes := Get(body.value, "indexes", List([])).value;
        if !Truthy(indexes) then outcome == NoIndexFound
        else if !indexes.List? then outcome == InternalError
        else match SelectAqi(indexes.elems)
          case NoIndexes => false
          case SelectionError => outcome == InternalError
          case Chosen(e) => outcome == Saved(AqiRecord(timestamp,
            Get(e, "aqi", Null).value, Get(e, "category", Null).value))
  {
    written := [];
    if apiKey.None? || apiKey.value == "" {
      return MissingApiKey, written;
    }
    if apiStatus != 200 {
      return ApiError(apiStatus), written;
    }
    if body.None? || !body.value.Object? {
      // `response.json()` failed, or `data.get` on a non-object raised.
      return InternalError, written;
    }
    var indexes := Get(body.value, "indexes", List([])).value;
    if !Truthy(indexes) {
      return NoIndexFound, written;
    }
    if !indexes.List? {
      // `indexes[0]` raises on a number, a boolean or an object; on a string the loop's
      // `idx.get` raises on its first character.
      return InternalError, written;
    }
    var selection := SelectAqiIndex(indexes.elems);
    if selection.SelectionError? {
      return InternalError, written;
    }
    SelectAqiChosen(indexes.elems);
    var entry := selection.entry;
    var record := AqiRecord(timestamp, Get(entry, "aqi", Null).value, Get(entry, "category", Null).value);
    written := written + [record];
    outcome := Saved(record);
  }
}
