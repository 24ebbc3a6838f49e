# VIN Wizard dashboard — verified model of its logic

VIN Wizard is a React page: the user types a Vehicle Identification Number
(VIN), the page asks the public vehicle-decoding service for the vehicle's
attributes, shows them, estimates the precious metals in the catalytic
converter, and keeps a history drawer of the ten most recently looked-up
VINs, one entry per VIN.

This project models the three pieces of logic inside `src/Dashboard.jsx`:

- **Attribute normalizer** (`VehicleRecord`). The decoder answers with a
  `Results` list of `{Variable, Value}` pairs. The page folds it into a flat
  record from attribute name to value. A pair whose value is `null`, empty or
  exactly `"Not Applicable"` is dropped, and a later pair for the same
  attribute overwrites an earlier one. `Normalize` is that fold as a
  function; `NormalizeResults` is the loop that updates the accumulator in
  place, as the `reduce` callback does, proved equal to it. The same fold
  appears twice in the source (once in the record effect, once for
  rendering); both are this one function.
- **Estimate-panel gate** (`VehicleRecord.ShowsEstimate`,
  `Dashboard.EstimatePanelShown`). The panel appears only when the record
  has a truthy `"Model Year"` and a truthy `"Displacement (L)"`.
- **Search history** (`SearchHistory`). An entry is
  `{vin, make, model, year}`, built from the normalized record. Recording a
  lookup is `[newSearch, ...history.filter(v => v.vin !== vin)].slice(0, 10)`:
  `RemoveVin` is the filter, `Record` the whole update.
  `Dashboard.AfterLookup` is the record effect's guard around it: it records
  only when an answer is present and a VIN was searched.

Modules: `Wrappers` (`wrappers.dfy`, the `Option` type for `undefined`/`null`),
`VehicleRecord` (`vehicle_record.dfy`), `SearchHistory` (`search_history.dfy`),
`Dashboard` (`dashboard.dfy`).

JavaScript values are modelled as follows. A possibly `null` `Value` and a
possibly `undefined` entry attribute are `Option<string>`. "Falsy" for a value
means absent or the empty string. The `Results` list is passed in directly; the
network request that produces it is a parameter of the model, not part of it.

## Model

| member | source | states |
|---|---|---|
| `VehicleRecord.Qualifies` | src/Dashboard.jsx:99 | definition of the callback's guard: a value that is present, non-empty and not `"Not Applicable"`; used by `VehicleRecord.NormalizeKeys` and `VehicleRecord.NormalizeLastWins` |
| `VehicleRecord.Step` | src/Dashboard.jsx:99-102 | definition of one callback step: a qualifying pair overwrites its attribute, any other leaves the accumulator as it was; characterized through `VehicleRecord.NormalizeLastWins` |
| `VehicleRecord.Normalize` | src/Dashboard.jsx:98-103 | every value in the record is non-empty and not "Not Applicable", and every key is the `Variable` of some qualifying pair |
| `VehicleRecord.NormalizeResults` | src/Dashboard.jsx:98-103 | the in-place fold loop computes exactly the record `Normalize` specifies |
| `VehicleRecord.NormalizeKeys` | src/Dashboard.jsx:129-134 | an attribute is a key of the record if and only if some pair names it with a usable value |
| `VehicleRecord.NormalizeLastWins` | src/Dashboard.jsx:99-101 | when several pairs share a `Variable`, the record holds the value of the last qualifying one |
| `VehicleRecord.EstimateGate` | src/Dashboard.jsx:209 | on a normalized record the truthiness gate is plain presence of both keys, and holds exactly when the decoder reported a usable model year and displacement |
| `VehicleRecord.ShowsEstimate` | src/Dashboard.jsx:209 | definition of the truthiness gate; characterized by `VehicleRecord.EstimateGate` |
| `Dashboard.EstimatePanelShown` | src/Dashboard.jsx:164-215 | definition of "answer present and gate passes"; characterized by `Dashboard.EstimatePanelGate` |
| `Dashboard.EstimatePanelGate` | src/Dashboard.jsx:164-215 | the panel is rendered exactly when an answer is present and reports a usable model year and displacement |
| `Dashboard.NewSearch` | src/Dashboard.jsx:105-110 | definition of the new entry; characterized by `Dashboard.NewSearchFromResults` and `Dashboard.NewSearchValues` |
| `Dashboard.NewSearchFromResults` | src/Dashboard.jsx:98-110 | the new entry carries the searched VIN, and its make, model and year are present exactly when the decoder reported a usable value for them |
| `Dashboard.NewSearchValues` | src/Dashboard.jsx:105-110 | make, model and year of the new entry are the values of the last qualifying `"Make"`, `"Model"` and `"Model Year"` pairs |
| `SearchHistory.RemoveVin` | src/Dashboard.jsx:112 | the filter keeps exactly the entries whose VIN differs, and its length is the old length minus the entries for that VIN |
| `SearchHistory.RemoveVinSubsequence` | src/Dashboard.jsx:112 | the filter keeps the surviving entries in their old order |
| `SearchHistory.RemoveVinAbsent` | src/Dashboard.jsx:112 | the filter changes nothing when no entry has the VIN |
| `SearchHistory.RemoveVinNoDup` | src/Dashboard.jsx:112 | the filter keeps a duplicate-free history duplicate-free |
| `SearchHistory.Record` | src/Dashboard.jsx:112 | the new history has between one and ten entries and starts with the new entry |
| `SearchHistory.RecordLength` | src/Dashboard.jsx:112 | the new history has min(10, 1 + old length − old entries for the VIN) entries |
| `SearchHistory.RecordTail` | src/Dashboard.jsx:112 | after the new entry comes a prefix of the filtered old history: old entries, in old order, none for the searched VIN |
| `SearchHistory.RecordOnce` | src/Dashboard.jsx:112 | the searched VIN appears exactly once in the new history |
| `SearchHistory.RecordNoDup` | src/Dashboard.jsx:112 | an old history without duplicate VINs gives a new one without duplicate VINs |
| `SearchHistory.RecordValid` | src/Dashboard.jsx:112 | recording keeps the invariant: at most ten entries, one per VIN |
| `SearchHistory.RecordEvicts` | src/Dashboard.jsx:112 | a full history without the VIN loses its last entry and the other nine follow the new one |
| `SearchHistory.RecordPrepends` | src/Dashboard.jsx:112 | a history shorter than ten without the VIN only gains the new entry in front |
| `SearchHistory.RecordSameVin` | src/Dashboard.jsx:112 | recording a VIN twice equals recording only the second entry: one entry, first, with the second attributes |
| `SearchHistory.RecordIdempotent` | src/Dashboard.jsx:112 | recording the same entry again changes nothing |
| `Dashboard.AfterLookup` | src/Dashboard.jsx:96-113 | definition of the record effect's `data && searchedVin` guard around `SearchHistory.Record`; characterized by `Dashboard.AfterLookupEffect`, `Dashboard.AfterLookupValid` and `Dashboard.AfterLookupRefire` |
| `Dashboard.AfterLookupEffect` | src/Dashboard.jsx:96-113 | with an answer and a searched VIN the history starts with that VIN, holds it once and has at most ten entries; otherwise it is unchanged |
| `Dashboard.AfterLookupValid` | src/Dashboard.jsx:96-113 | the record effect keeps the history invariant |
| `Dashboard.AfterLookupRefire` | src/Dashboard.jsx:96-116 | running the effect again for the same answer and VIN leaves the history unchanged |

## Left out

- `fetchVehicleData` (src/Dashboard.jsx:7-12): the network request. Its `Results` list is an input of the model. A response without `Results`, which would throw at line 98, is not modelled.
- React Query state, `useState`/`useEffect` scheduling, the form handlers (including selecting a history entry to look its VIN up again) and the drawer flag (src/Dashboard.jsx:78-94, 118-127). The effect's closure over an older `searchHistory` (its dependency list at line 116) is a scheduling matter and is not modelled.
- `localStorage` reading and writing with `JSON.parse`/`JSON.stringify` (src/Dashboard.jsx:89-94, 114): storage I/O. `JSON.parse` at src/Dashboard.jsx:92 is unguarded and throws on malformed stored JSON; the model states no "corrupt storage reads as empty" property. A history loaded from storage may break the invariant; `RecordValid` assumes it holds.
- `estimateCatalyticConverterContents` and `estimateValue` (src/Dashboard.jsx:23-58): floating-point arithmetic with `parseInt`/`parseFloat`, `Math.round` and `NaN`.
- All JSX rendering beyond the panel gate, src/Drawer.jsx and src/App.jsx: presentation only.
- `VehicleRecord.Normalize`: a JavaScript object key such as `__proto__` behaves specially on assignment; the model treats every `Variable` as an ordinary key. A non-string truthy `Value` is not modelled, since the decoder sends strings or `null`.
