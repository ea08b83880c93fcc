/** The cheating-devices list: one row per kind of cheating, the first record
    received of that kind. */
module CheatingDevices {
  import opened Records
  import opened Seqs

  function TypeOf(r: CheatingRecord): string
  {
    r.typeOfCheating
  }

  predicate TypesDistinct(s: seq<CheatingRecord>)
  {
    forall i, j :: 0 <= i < j < |s| ==> s[i].typeOfCheating != s[j].typeOfCheating
  }

  /** `filterUniqueCheatingTypes`: a first-insertion `Map` from type to record,
      read back in insertion order. */
  function UniqueCheatingTypes(data: seq<CheatingRecord>): (r: seq<CheatingRecord>)
    ensures TypesDistinct(r)
    ensures KeySet(r, TypeOf) == KeySet(data, TypeOf)
    ensures forall i :: 0 <= i < |r| ==> IsFirstWithKey(data, TypeOf, r[i])
    ensures InFirstOrder(r, data, TypeOf)
    ensures IsSubseq(r, data) && |r| <= |data|
  {
    DedupeBy(data, TypeOf)
  }

  /** Filtering an already filtered list changes nothing. */
  lemma UniqueCheatingTypesIdempotent(data: seq<CheatingRecord>)
    ensures UniqueCheatingTypes(UniqueCheatingTypes(data)) == UniqueCheatingTypes(data)
  {
    DedupeIdempotent(data, TypeOf);
  }

  datatype Response = Fetched(data: seq<CheatingRecord>) | FetchFailed

  /** `fetchTrackingData`: a failed request keeps the list shown; a successful
      one shows the first record of each type in the response, in the order the
      types first appear. */
  function Refresh(shown: seq<CheatingRecord>, response: Response): (r: seq<CheatingRecord>)
    ensures response.FetchFailed? ==> r == shown
    ensures TypesDistinct(shown) ==> TypesDistinct(r)
    ensures response.Fetched? ==> KeySet(r, TypeOf) == KeySet(response.data, TypeOf)
    ensures response.Fetched? ==> TypesDistinct(r)
    ensures response.Fetched? ==> forall i :: 0 <= i < |r| ==> IsFirstWithKey(response.data, TypeOf, r[i])
    ensures response.Fetched? ==> InFirstOrder(r, response.data, TypeOf)
  {
    match response
    case Fetched(data) => UniqueCheatingTypes(data)
    case FetchFailed => shown
  }
}
