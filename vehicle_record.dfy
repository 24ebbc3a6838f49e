/**
 * The attribute normalizer of the dashboard: the decoder answers with a list
 * of `{Variable, Value}` pairs, which is folded into a flat record from
 * attribute name to value. A pair whose value is missing, empty or exactly
 * "Not Applicable" is dropped; a later pair for the same attribute overwrites
 * an earlier one. The estimate panel is shown only when the record has a
 * model year and an engine displacement.
 */
module VehicleRecord {
  import opened Wrappers

  /** One element of the decoder's `Results` list; `value` is None for `null`. */
  datatype Pair = Pair(variable: string, value: Option<string>)

  /** The flat attribute record built from `Results`. */
  type Attributes = map<string, string>

  const NotApplicable: string := "Not Applicable"
  const ModelYear: string := "Model Year"
  const Displacement: string := "Displacement (L)"

  /** A value the record may hold: truthy in JavaScript and not the sentinel. */
  predicate Admissible(v: string) {
    v != "" && v != NotApplicable
  }

  /** The guard of the fold's callback: `item.Value && item.Value !== 'Not Applicable'`. */
  predicate Qualifies(p: Pair) {
    p.value.Some? && Admissible(p.value.value)
  }

  /** One step of the fold: a qualifying pair overwrites its attribute. */
  function Step(acc: Attributes, p: Pair): Attributes {
    if Qualifies(p) then acc[p.variable := p.value.value] else acc
  }

  /** Some pair of `results` qualifies and names attribute `k`. */
  ghost predicate Reported(results: seq<Pair>, k: string) {
    exists i :: 0 <= i < |results| && results[i].variable == k && Qualifies(results[i])
  }

  /** The normalized record: the left fold of Step over `results`, from the empty record. */
  function Normalize(results: seq<Pair>): (r: Attributes)
    ensures forall k :: k in r ==> Admissible(r[k])
    ensures forall k :: k in r ==> Reported(results, k)
    decreases |results|
  {
    if results == [] then map[]
    else
      var init := results[..|results| - 1];
      var acc := Normalize(init);
      assert forall k :: Reported(init, k) ==> Reported(results, k) by {
        forall k | Reported(init, k) ensures Reported(results, k) {
          var i :| 0 <= i < |init| && init[i].variable == k && Qualifies(init[i]);
          assert results[i] == init[i];
        }
      }
      Step(acc, results[|results| - 1])
  }

  /** The fold as the source runs it: a loop that updates the accumulator in place. */
  method NormalizeResults(results: seq<Pair>) returns (record: Attributes)
    ensures record == Normalize(results)
  {
    record := map[];
    var i := 0;
    while i < |results|
      invariant 0 <= i <= |results|
      invariant record == Normalize(results[..i])
    {
      var item := results[i];
      assert results[..i + 1][..i] == results[..i];
      if item.value.Some? && item.value.value != "" && item.value.value != NotApplicable {
        record := record[item.variable := item.value.value];
      }
      i := i + 1;
    }
    assert results[..|results|] == results;
  }

  /** Every attribute reported by a qualifying pair is in the record, and only those. */
  lemma {:induction false} NormalizeKeys(results: seq<Pair>, k: string)
    ensures k in Normalize(results) <==> Reported(results, k)
    decreases |results|
  {
    if results != [] {
      var n := |results|;
      var init := results[..n - 1];
      NormalizeKeys(init, k);
      if Reported(results, k) && !(results[n - 1].variable == k && Qualifies(results[n - 1])) {
        var i :| 0 <= i < n && results[i].variable == k && Qualifies(results[i]);
        assert i < n - 1;
        assert init[i] == results[i];
      }
    }
  }

  /**
   * The record holds the value of the LAST qualifying pair for an attribute:
   * when the pair at index `i` qualifies and no later pair for the same
   * attribute does, the record maps that attribute to the pair's value.
   */
  lemma {:induction false} NormalizeLastWins(results: seq<Pair>, i: nat)
    requires i < |results| && Qualifies(results[i])
    requires forall j :: i < j < |results| && results[j].variable == results[i].variable ==> !Qualifies(results[j])
    ensures results[i].variable in Normalize(results)
    ensures Normalize(results)[results[i].variable] == results[i].value.value
    decreases |results|
  {
    var n := |results|;
    if i < n - 1 {
      var init := results[..n - 1];
      assert init[i] == results[i];
      forall j | i < j < |init| && init[j].variable == init[i].variable
        ensures !Qualifies(init[j])
      {
        assert init[j] == results[j];
      }
      NormalizeLastWins(init, i);
    }
  }

  /** JavaScript truthiness of `record[key]`: present and not the empty string. */
  predicate Truthy(record: Attributes, key: string) {
    key in record && record[key] != ""
  }

  /** The gate of the estimate panel: `record['Model Year'] && record['Displacement (L)']`. */
  predicate ShowsEstimate(record: Attributes) {
    Truthy(record, ModelYear) && Truthy(record, Displacement)
  }

  /**
   * On a normalized record the gate is plain key presence, and holds exactly
   * when the decoder reported a usable model year and a usable displacement.
   */
  lemma EstimateGate(results: seq<Pair>)
    ensures ShowsEstimate(Normalize(results)) <==> ModelYear in Normalize(results) && Displacement in Normalize(results)
    ensures ShowsEstimate(Normalize(results)) <==> Reported(results, ModelYear) && Reported(results, Displacement)
  {
    NormalizeKeys(results, ModelYear);
    NormalizeKeys(results, Displacement);
  }
}
