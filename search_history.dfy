/**
 * The search history of the dashboard: a most-recently-used list of past
 * lookups, identified by VIN and capped at ten entries. Recording a lookup
 * drops every older entry for the same VIN, puts the new entry in front and
 * cuts the list to the cap.
 */
module SearchHistory {
  import opened Wrappers

  /** One remembered lookup; the attributes are absent when the record lacked them. */
  datatype Entry = Entry(vin: string, make: Option<string>, model: Option<string>, year: Option<string>)

  /** The length the history is cut to. */
  const Cap: nat := 10

  function Min(a: nat, b: nat): nat {
    if a <= b then a else b
  }

  /** The number of entries of `h` for `vin`. */
  function CountVin(h: seq<Entry>, vin: string): (n: nat)
    ensures n <= |h|
    ensures n == 0 <==> forall x :: x in h ==> x.vin != vin
  {
    if h == [] then 0
    else (if h[0].vin == vin then 1 else 0) + CountVin(h[1..], vin)
  }

  /** No two entries of `h` share a VIN. */
  predicate NoDupVins(h: seq<Entry>) {
    forall i, j :: 0 <= i < j < |h| ==> h[i].vin != h[j].vin
  }

  /** The history invariant every recorded list keeps. */
  predicate Valid(h: seq<Entry>) {
    |h| <= Cap && NoDupVins(h)
  }

  /** `s` is `t` with some entries left out and the rest in their order. */
  ghost predicate Subsequence(s: seq<Entry>, t: seq<Entry>)
    decreases |t|
  {
    if s == [] then true
    else if t == [] then false
    else (s[0] == t[0] && Subsequence(s[1..], t[1..])) || Subsequence(s, t[1..])
  }

  /** The filter `h.filter(v => v.vin !== vin)`. */
  function RemoveVin(h: seq<Entry>, vin: string): (r: seq<Entry>)
    ensures forall x :: x in r <==> x in h && x.vin != vin
    ensures |r| == |h| - CountVin(h, vin)
  {
    if h == [] then []
    else if h[0].vin == vin then RemoveVin(h[1..], vin)
    else [h[0]] + RemoveVin(h[1..], vin)
  }

  /** The history after a lookup of `e.vin`: `[e, ...h.filter(v => v.vin !== e.vin)].slice(0, 10)`. */
  function Record(h: seq<Entry>, e: Entry): (r: seq<Entry>)
    ensures 1 <= |r| <= Cap
    ensures r[0] == e
  {
    var all := [e] + RemoveVin(h, e.vin);
    if |all| <= Cap then all else all[..Cap]
  }

  // ---------------------------------------------------------------------------
  // The filter

  /** The filter keeps the surviving entries in their old order. */
  lemma {:induction false} RemoveVinSubsequence(h: seq<Entry>, vin: string)
    ensures Subsequence(RemoveVin(h, vin), h)
  {
    if h != [] {
      RemoveVinSubsequence(h[1..], vin);
    }
  }

  /** Every prefix of a subsequence is a subsequence. */
  lemma {:induction false} SubsequencePrefix(s: seq<Entry>, t: seq<Entry>, n: nat)
    requires Subsequence(s, t) && n <= |s|
    ensures Subsequence(s[..n], t)
    decreases |t|
  {
    if n > 0 {
      assert t != [];
      if s[0] == t[0] && Subsequence(s[1..], t[1..]) {
        SubsequencePrefix(s[1..], t[1..], n - 1);
        assert s[..n][1..] == s[1..][..n - 1];
      } else {
        SubsequencePrefix(s, t[1..], n);
      }
    }
  }

  /** The filter removes nothing from a history without entries for `vin`. */
  lemma {:induction false} RemoveVinAbsent(h: seq<Entry>, vin: string)
    requires CountVin(h, vin) == 0
    ensures RemoveVin(h, vin) == h
  {
    if h != [] {
      RemoveVinAbsent(h[1..], vin);
      assert h == [h[0]] + h[1..];
    }
  }

  /** The filter keeps a history free of duplicate VINs. */
  lemma {:induction false} RemoveVinNoDup(h: seq<Entry>, vin: string)
    requires NoDupVins(h)
    ensures NoDupVins(RemoveVin(h, vin))
  {
    if h != [] {
      RemoveVinNoDup(h[1..], vin);
      var rest := RemoveVin(h[1..], vin);
      if h[0].vin != vin {
        forall x | x in rest ensures x.vin != h[0].vin {
          var k :| 0 <= k < |h[1..]| && h[1..][k] == x;
          assert h[k + 1] == x;
        }
      }
    }
  }

  // ---------------------------------------------------------------------------
  // Recording a lookup

  /** The new history is as long as the cap allows: one more than the survivors of the filter. */
  lemma RecordLength(h: seq<Entry>, e: Entry)
    ensures |Record(h, e)| == Min(Cap, 1 + |h| - CountVin(h, e.vin))
  {
  }

  /**
   * Apart from the new entry in front, the history is the old one without
   * the entries for `e.vin`, in the old order, cut at the tail.
   */
  lemma RecordTail(h: seq<Entry>, e: Entry)
    ensures Record(h, e)[1..] <= RemoveVin(h, e.vin)
    ensures Subsequence(Record(h, e)[1..], h)
    ensures forall x :: x in Record(h, e)[1..] ==> x in h && x.vin != e.vin
  {
    var r := Record(h, e);
    var rest := RemoveVin(h, e.vin);
    assert r[1..] == rest[..|r| - 1];
    RemoveVinSubsequence(h, e.vin);
    SubsequencePrefix(rest, h, |r| - 1);
  }

  /** The searched VIN appears exactly once in the new history. */
  lemma RecordOnce(h: seq<Entry>, e: Entry)
    ensures CountVin(Record(h, e), e.vin) == 1
  {
  }

  /** Recording keeps the history free of duplicate VINs. */
  lemma RecordNoDup(h: seq<Entry>, e: Entry)
    requires NoDupVins(h)
    ensures NoDupVins(Record(h, e))
  {
    var r := Record(h, e);
    var rest := RemoveVin(h, e.vin);
    RemoveVinNoDup(h, e.vin);
    assert r[1..] == rest[..|r| - 1];
    forall i, j | 0 <= i < j < |r| ensures r[i].vin != r[j].vin {
      if i == 0 {
        assert r[j] == rest[j - 1];
        assert r[j] in rest;
      } else {
        assert r[i] == rest[i - 1] && r[j] == rest[j - 1];
      }
    }
  }

  /** Recording keeps the history invariant: at most ten entries, one per VIN. */
  lemma RecordValid(h: seq<Entry>, e: Entry)
    requires Valid(h)
    ensures Valid(Record(h, e))
  {
    RecordNoDup(h, e);
  }

  /** A full history without the searched VIN loses its oldest entry; the other nine follow the new one. */
  lemma RecordEvicts(h: seq<Entry>, e: Entry)
    requires |h| == Cap && CountVin(h, e.vin) == 0
    ensures Record(h, e) == [e] + h[..Cap - 1]
  {
    RemoveVinAbsent(h, e.vin);
  }

  /** A shorter history without the searched VIN only gains the new entry in front. */
  lemma {:induction false} RecordPrepends(h: seq<Entry>, e: Entry)
    requires |h| < Cap && CountVin(h, e.vin) == 0
    ensures Record(h, e) == [e] + h
  {
    RemoveVinAbsent(h, e.vin);
  }

  /**
   * Recording a VIN again replaces what the first recording left: the result
   * is the same as if only the second entry had been recorded.
   */
  lemma RecordSameVin(h: seq<Entry>, e1: Entry, e2: Entry)
    requires e1.vin == e2.vin
    ensures Record(Record(h, e1), e2) == Record(h, e2)
  {
    var rest := RemoveVin(h, e1.vin);
    var r1 := Record(h, e1);
    RecordTail(h, e1);
    assert r1 == [e1] + r1[1..];
    assert CountVin(r1[1..], e1.vin) == 0;
    RemoveVinAbsent(r1[1..], e1.vin);
    assert RemoveVin(r1, e2.vin) == r1[1..];
    assert r1[1..] == rest[..|r1| - 1];
  }

  /** Recording the same entry twice changes nothing the second time. */
  lemma RecordIdempotent(h: seq<Entry>, e: Entry)
    ensures Record(Record(h, e), e) == Record(h, e)
  {
    RecordSameVin(h, e, e);
  }
}
