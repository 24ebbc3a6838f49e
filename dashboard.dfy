/**
 * The dashboard's reaction to a decoder answer: the answer is normalized,
 * an entry for the searched VIN is recorded in the history, and the
 * estimate panel is shown or replaced by a placeholder.
 */
module Dashboard {
  import opened Wrappers
  import opened VehicleRecord
  import opened SearchHistory

  const Make: string := "Make"
  const Model: string := "Model"

  /** The entry remembered for a lookup of `vin` whose normalized record is `record`. */
  function NewSearch(vin: string, record: Attributes): Entry
  {
    Entry(vin, Get(record, Make), Get(record, Model), Get(record, ModelYear))
  }

  /**
   * The history after the record effect has run: it records only when the
   * decoder answered (`data` is present) and a VIN was searched; otherwise
   * the history stays as it was. `data` stands for the `Results` list.
   */
  function AfterLookup(history: seq<Entry>, searchedVin: string, data: Option<seq<Pair>>): seq<Entry>
  {
    if data.Some? && searchedVin != "" then
      Record(history, NewSearch(searchedVin, Normalize(data.value)))
    else history
  }

  /** Whether the estimate panel is rendered: a record exists and passes the gate. */
  predicate EstimatePanelShown(data: Option<seq<Pair>>) {
    data.Some? && ShowsEstimate(Normalize(data.value))
  }

  /**
   * The remembered entry carries the searched VIN, and each attribute is
   * present exactly when the decoder reported a usable value for it.
   */
  lemma {:induction false} NewSearchFromResults(vin: string, results: seq<Pair>)
    ensures NewSearch(vin, Normalize(results)).vin == vin
    ensures NewSearch(vin, Normalize(results)).make.Some? <==> Reported(results, Make)
    ensures NewSearch(vin, Normalize(results)).model.Some? <==> Reported(results, Model)
    ensures NewSearch(vin, Normalize(results)).year.Some? <==> Reported(results, ModelYear)
  {
    NormalizeKeys(results, Make);
    NormalizeKeys(results, Model);
    NormalizeKeys(results, ModelYear);
  }

  /** Pair `i` names attribute `k`, qualifies, and no later pair for `k` qualifies. */
  ghost predicate LastReport(results: seq<Pair>, k: string, i: int) {
    && 0 <= i < |results|
    && results[i].variable == k
    && Qualifies(results[i])
    && forall j :: i < j < |results| && results[j].variable == k ==> !Qualifies(results[j])
  }

  /**
   * Each attribute of the remembered entry is the value of the last
   * qualifying pair the decoder sent for it.
   */
  lemma {:induction false} NewSearchValues(vin: string, results: seq<Pair>, i: int)
    ensures LastReport(results, Make, i) ==>
      NewSearch(vin, Normalize(results)).make == Some(results[i].value.value)
    ensures LastReport(results, Model, i) ==>
      NewSearch(vin, Normalize(results)).model == Some(results[i].value.value)
    ensures LastReport(results, ModelYear, i) ==>
      NewSearch(vin, Normalize(results)).year == Some(results[i].value.value)
  {
    if 0 <= i < |results| && Qualifies(results[i]) {
      var k := results[i].variable;
      if forall j :: i < j < |results| && results[j].variable == k ==> !Qualifies(results[j]) {
        NormalizeLastWins(results, i);
      }
    }
  }

  /**
   * After a successful lookup the history starts with the searched VIN,
   * holds it once and has at most ten entries; without an answer or
   * without a searched VIN it is unchanged.
   */
  lemma AfterLookupEffect(history: seq<Entry>, searchedVin: string, data: Option<seq<Pair>>)
    ensures data.Some? && searchedVin != "" ==>
      var r := AfterLookup(history, searchedVin, data);
      1 <= |r| <= Cap && r[0].vin == searchedVin && CountVin(r, searchedVin) == 1
    ensures !(data.Some? && searchedVin != "") ==> AfterLookup(history, searchedVin, data) == history
  {
  }

  /** The record effect keeps the history invariant: at most ten entries, one per VIN. */
  lemma AfterLookupValid(history: seq<Entry>, searchedVin: string, data: Option<seq<Pair>>)
    requires SearchHistory.Valid(history)
    ensures SearchHistory.Valid(AfterLookup(history, searchedVin, data))
  {
    if data.Some? && searchedVin != "" {
      RecordValid(history, NewSearch(searchedVin, Normalize(data.value)));
    }
  }

  /** Running the record effect again for the same answer and VIN leaves the history as it is. */
  lemma AfterLookupRefire(history: seq<Entry>, searchedVin: string, data: Option<seq<Pair>>)
    ensures AfterLookup(AfterLookup(history, searchedVin, data), searchedVin, data)
         == AfterLookup(history, searchedVin, data)
  {
    if data.Some? && searchedVin != "" {
      RecordIdempotent(history, NewSearch(searchedVin, Normalize(data.value)));
    }
  }

  /** The estimate panel is shown exactly when the answer reports a usable model year and displacement. */
  lemma EstimatePanelGate(data: Option<seq<Pair>>)
    ensures EstimatePanelShown(data) <==>
      data.Some? && Reported(data.value, ModelYear) && Reported(data.value, Displacement)
  {
    if data.Some? {
      EstimateGate(data.value);
    }
  }
}
