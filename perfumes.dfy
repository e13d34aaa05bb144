/** The perfume catalogue and its two read-only queries: recommendation by
    scent notes and lookup of notes by perfume name. */
module Perfumes {
  import opened Text
  import opened Filtering

  /** One catalogue record: the "Name", "Brand" and "Notes" fields. */
  datatype Perfume = Perfume(name: string, brand: string, notes: string)

  /** Outcome of the recommendation endpoint: the matching records, the
      "No preferences provided" error, or the 404 "Note(s) not found". */
  datatype RecommendationResult =
    | Recommendations(records: seq<Perfume>)
    | NoPreferences
    | NotesNotFound

  /** Outcome of the notes endpoint: the query echoed with every matching
      record's notes, or the 404 "Perfume not found". */
  datatype NotesResult =
    | PerfumeNotes(perfumeName: string, perfumeNotes: seq<string>)
    | PerfumeNotFound

  /** Every preference, lower-cased, is a substring of `characteristics`. */
  predicate ContainsAllPreferences(characteristics: string, preferences: seq<string>)
    ensures ContainsAllPreferences(characteristics, preferences) <==>
              forall i :: 0 <= i < |preferences| ==> Occurs(characteristics, Lower(preferences[i]))
  {
    forall i :: 0 <= i < |preferences| ==> Contains(characteristics, Lower(preferences[i]))
  }

  /** A record is recommended when its lower-cased notes contain every
      lower-cased preference; with no preferences every record matches. */
  predicate Matches(p: Perfume, preferences: seq<string>)
    ensures Matches(p, preferences) <==>
              forall i :: 0 <= i < |preferences| ==> Occurs(Lower(p.notes), Lower(preferences[i]))
    ensures |preferences| == 0 ==> Matches(p, preferences)
  {
    ContainsAllPreferences(Lower(p.notes), preferences)
  }

  function MatchesAllOf(preferences: seq<string>): Perfume -> bool
  {
    p => Matches(p, preferences)
  }

  /** A record answers a name query when the names have the same length
      and agree character by character ignoring case. */
  predicate NameMatches(p: Perfume, perfumeName: string)
    ensures NameMatches(p, perfumeName) <==>
              |p.name| == |perfumeName| &&
              forall i :: 0 <= i < |perfumeName| ==> LowerChar(p.name[i]) == LowerChar(perfumeName[i])
    ensures p.name == perfumeName ==> NameMatches(p, perfumeName)
  {
    Lower(p.name) == Lower(perfumeName)
  }

  function NamedAs(perfumeName: string): Perfume -> bool
  {
    p => NameMatches(p, perfumeName)
  }

  /** What the recommendation endpoint answers for a catalogue. */
  function Recommend(perfumes: seq<Perfume>, preferences: seq<string>): (r: RecommendationResult)
    ensures |preferences| == 0 <==> r == NoPreferences
    ensures r == NotesNotFound <==>
              |preferences| > 0 && forall j :: 0 <= j < |perfumes| ==> !Matches(perfumes[j], preferences)
    ensures r.Recommendations? ==> r.records != [] && r.records == Filter(perfumes, MatchesAllOf(preferences))
  {
    if |preferences| == 0 then NoPreferences
    else
      var matching := Filter(perfumes, MatchesAllOf(preferences));
      FilterEmpty(perfumes, MatchesAllOf(preferences));
      if matching == [] then NotesNotFound else Recommendations(matching)
  }

  /** The notes of the records called `perfumeName`, in catalogue order. */
  function NotesNamed(perfumes: seq<Perfume>, perfumeName: string): (notes: seq<string>)
    ensures |notes| == |FilterIndices(perfumes, NamedAs(perfumeName))|
    ensures forall k :: 0 <= k < |notes| ==>
              notes[k] == perfumes[FilterIndices(perfumes, NamedAs(perfumeName))[k]].notes
  {
    if perfumes == [] then []
    else
      var n := |perfumes| - 1;
      NotesNamed(perfumes[..n], perfumeName)
        + (if NameMatches(perfumes[n], perfumeName) then [perfumes[n].notes] else [])
  }

  /** Soundness: a recommended record is in the catalogue and its lower-cased
      notes contain every lower-cased preference. */
  lemma RecommendationSound(perfumes: seq<Perfume>, preferences: seq<string>, p: Perfume, i: nat)
    requires Recommend(perfumes, preferences).Recommendations?
    requires p in Recommend(perfumes, preferences).records
    requires i < |preferences|
    ensures p in perfumes
    ensures Occurs(Lower(p.notes), Lower(preferences[i]))
  {
    FilterSound(perfumes, MatchesAllOf(preferences), p);
  }

  /** Completeness: with at least one preference, every catalogue record whose
      notes contain all preferences is recommended. */
  lemma RecommendationComplete(perfumes: seq<Perfume>, preferences: seq<string>, j: nat)
    requires |preferences| > 0 && j < |perfumes|
    requires forall i :: 0 <= i < |preferences| ==> Occurs(Lower(perfumes[j].notes), Lower(preferences[i]))
    ensures Recommend(perfumes, preferences).Recommendations?
    ensures perfumes[j] in Recommend(perfumes, preferences).records
  {
    FilterComplete(perfumes, MatchesAllOf(preferences), j);
  }

  /** Order: the recommended records are the catalogue's records at strictly
      increasing positions, and those positions are exactly the matching
      ones, so no record is dropped, duplicated or reordered. */
  lemma RecommendationInCatalogueOrder(perfumes: seq<Perfume>, preferences: seq<string>)
    requires Recommend(perfumes, preferences).Recommendations?
    ensures var records := Recommend(perfumes, preferences).records;
            var idx := FilterIndices(perfumes, MatchesAllOf(preferences));
            && |records| == |idx|
            && (forall k :: 0 <= k < |records| ==> idx[k] < |perfumes| && records[k] == perfumes[idx[k]])
            && (forall a, b :: 0 <= a < b < |idx| ==> idx[a] < idx[b])
            && (forall j :: 0 <= j < |perfumes| ==> (Matches(perfumes[j], preferences) <==> j in idx))
  {
  }

  /** The preferences are compared ignoring case: replacing a preference by
      its lower-case form does not change the answer. */
  lemma {:induction false} RecommendIgnoresPreferenceCase(perfumes: seq<Perfume>, preferences: seq<string>, i: nat)
    requires i < |preferences|
    ensures Recommend(perfumes, preferences[i := Lower(preferences[i])]) == Recommend(perfumes, preferences)
  {
    var lowered := preferences[i := Lower(preferences[i])];
    LowerIdempotent(preferences[i]);
    forall j | 0 <= j < |perfumes|
      ensures MatchesAllOf(lowered)(perfumes[j]) == MatchesAllOf(preferences)(perfumes[j])
    {
      assert forall m :: 0 <= m < |preferences| ==> Lower(lowered[m]) == Lower(preferences[m]);
    }
    FilterAgrees(perfumes, MatchesAllOf(lowered), MatchesAllOf(preferences));
  }

  /** Every record called `perfumeName` (ignoring case) contributes its
      notes, and only those records do, in catalogue order. */
  lemma NotesNamedExactly(perfumes: seq<Perfume>, perfumeName: string)
    ensures var notes := NotesNamed(perfumes, perfumeName);
            var idx := FilterIndices(perfumes, NamedAs(perfumeName));
            && |notes| == |idx|
            && (forall k :: 0 <= k < |notes| ==> idx[k] < |perfumes| && notes[k] == perfumes[idx[k]].notes)
            && (forall a, b :: 0 <= a < b < |idx| ==> idx[a] < idx[b])
            && (forall j :: 0 <= j < |perfumes| ==> (NameMatches(perfumes[j], perfumeName) <==> j in idx))
  {
  }

  /** The notes query ignores case: asking with the lower-case name gives
      the same notes. */
  lemma {:induction false} NotesNamedIgnoresCase(perfumes: seq<Perfume>, perfumeName: string)
    ensures NotesNamed(perfumes, Lower(perfumeName)) == NotesNamed(perfumes, perfumeName)
  {
    if perfumes != [] {
      LowerIdempotent(perfumeName);
      NotesNamedIgnoresCase(perfumes[..|perfumes| - 1], perfumeName);
    }
  }

  /** The catalogue, loaded once and afterwards only read by the queries. */
  class PerfumeCatalogue {
    var perfumes: seq<Perfume>

    constructor (loaded: seq<Perfume>)
      ensures perfumes == loaded
    {
      perfumes := loaded;
    }

    /** The recommendation endpoint: scans the catalogue in order and keeps
        each record whose lower-cased notes contain every preference. */
    method GetRecommendation(preferences: seq<string>) returns (r: RecommendationResult)
      ensures r == Recommend(perfumes, preferences)
      ensures perfumes == old(perfumes)
    {
      if |preferences| == 0 {
        return NoPreferences;
      }
      var matching: seq<Perfume> := [];
      for i := 0 to |perfumes|
        invariant matching == Filter(perfumes[..i], MatchesAllOf(preferences))
      {
        var perfume := perfumes[i];
        var characteristics := Lower(perfume.notes);
        assert perfumes[..i + 1][..i] == perfumes[..i];
        if ContainsAllPreferences(characteristics, preferences) {
          matching := matching + [perfume];
        }
      }
      assert perfumes[..|perfumes|] == perfumes;
      if matching == [] {
        return NotesNotFound;
      }
      return Recommendations(matching);
    }

    /** The notes endpoint: the notes of every record whose name equals the
        query ignoring case, or not-found when there is none. */
    function GetPerfumeNotes(perfumeName: string): (r: NotesResult)
      reads this
      ensures r == PerfumeNotFound <==>
                forall j :: 0 <= j < |perfumes| ==> !NameMatches(perfumes[j], perfumeName)
      ensures r.PerfumeNotes? ==>
                r.perfumeName == perfumeName && r.perfumeNotes == NotesNamed(perfumes, perfumeName)
    {
      var notes := NotesNamed(perfumes, perfumeName);
      var idx := FilterIndices(perfumes, NamedAs(perfumeName));
      assert idx != [] ==> NameMatches(perfumes[idx[0]], perfumeName);
      if notes == [] then PerfumeNotFound else PerfumeNotes(perfumeName, notes)
    }
  }
}
