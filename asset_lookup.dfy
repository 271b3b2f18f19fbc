/** The interactive lookup script: one search term, by address, host name
    or asset id, filtered over the preprocessed inventory. */
module AssetLookup {
  import opened Wrappers
  import opened Seqs
  import opened Text
  import opened Inventory

  datatype Search = ByIp(term: string) | ByHostname(term: string) | ById(term: string)

  datatype LookupError =
    | EmptyTerm   // the prompt repeats: an empty term is never searched
    | NotANumber  // `int()` rejects the asset id term

  /** What is shown: the matching rows, or the id search's "not found". */
  datatype Answer = Found(rows: seq<Row>) | AssetNotFound

  predicate HasId(id: int, r: Row)
  {
    r.assetId == id
  }

  function IdTest(id: int): Row -> bool
  {
    r => HasId(id, r)
  }

  /** The rows of the inventory whose asset id equals `id`. */
  function IdMatches(db: seq<Row>, id: int): (rows: seq<Row>)
    ensures forall k :: 0 <= k < |rows| ==> rows[k] in db && rows[k].assetId == id
    ensures forall k :: 0 <= k < |db| && db[k].assetId == id ==> db[k] in rows
    ensures |rows| == 0 <==> forall k :: 0 <= k < |db| ==> db[k].assetId != id
  {
    var rows := Filter(db, IdTest(id));
    assert forall k :: 0 <= k < |rows| ==> IdTest(id)(rows[k]);
    assert |rows| > 0 ==> exists k :: 0 <= k < |db| && db[k] == rows[0];
    rows
  }

  /** The rows of the inventory whose address contains the term. */
  function IpMatches(db: seq<Row>, term: string): (rows: seq<Row>)
    ensures forall k :: 0 <= k < |rows| ==> rows[k] in db && Contains(rows[k].ip, term)
    ensures forall k :: 0 <= k < |db| && Contains(db[k].ip, term) ==> db[k] in rows
  {
    var rows := Filter(db, AddressTest(term));
    assert forall k :: 0 <= k < |rows| ==> AddressTest(term)(rows[k]);
    rows
  }

  /** One search. An empty term is rejected before any filtering; an id
      term goes through `int()`; only the id search reports "not found". */
  function Lookup(db: seq<Row>, search: Search): (r: Result<Answer, LookupError>)
    ensures search.term == [] <==> r == Failure(EmptyTerm)
    ensures r.Success? && r.value.Found? ==> forall k :: 0 <= k < |r.value.rows| ==> r.value.rows[k] in db
    ensures r.Success? && r.value.AssetNotFound? ==> search.ById?
    ensures search.ById? && search.term != [] ==>
      (r == Failure(NotANumber) <==> ParseInt(search.term).None?)
  {
    if search.term == [] then Failure(EmptyTerm)
    else
      match search
      case ByIp(term) => Success(Found(IpMatches(db, term)))
      case ByHostname(term) => Success(Found(HostMatches(db, term)))
      case ById(term) =>
        match ParseInt(term)
        case None => Failure(NotANumber)
        case Some(id) =>
          var rows := IdMatches(db, id);
          if |rows| == 0 then Success(AssetNotFound) else Success(Found(rows))
  }

  /** "Asset not found" is shown iff no row carries the id; otherwise every
      row with the id is shown, one per exploded address, and no other. */
  lemma IdLookup(db: seq<Row>, term: string, id: int)
    requires ParseInt(term) == Some(id)
    ensures Lookup(db, ById(term)).Success?
    ensures Lookup(db, ById(term)) == Success(AssetNotFound) <==> forall k :: 0 <= k < |db| ==> db[k].assetId != id
    ensures Lookup(db, ById(term)).value.Found? ==>
      (forall r :: r in Lookup(db, ById(term)).value.rows <==> r in db && r.assetId == id)
  {
    assert term != [] by {
      assert Strip([]) == [];
    }
  }

  /** The address search matches substrings: the term "10.0.0.1" also
      selects a row whose address is "10.0.0.10". */
  lemma AddressPrefixAlsoMatches(r: Row)
    requires r.ip == "10.0.0.10"
    ensures Lookup([r], ByIp("10.0.0.1")) == Success(Found([r]))
  {
    assert OccursAt(r.ip, "10.0.0.1", 0);
    assert AddressTest("10.0.0.1")(r);
    assert [r][..0] == [];
    assert Filter([r], AddressTest("10.0.0.1")) == [r];
    assert IpMatches([r], "10.0.0.1") == [r];
  }

  /** The host name search compares keys: a query and a host with the same
      name up to case and domain find each other. */
  lemma HostLookupFindsOwnName(db: seq<Row>, name: string, query: string, k: nat)
    requires k < |db| && db[k].hostName == CleanHost(Some(name))
    requires Lower(DropDomain(query)) == Lower(DropDomain(name))
    ensures Lookup(db, ByHostname(query)).Success? ==> db[k] in Lookup(db, ByHostname(query)).value.rows
  {
    CleanHostIsQueryKey(name);
    CleanHostIsQueryKey(query);
    assert OccursAt(db[k].hostName.value, QueryKey(query), 0);
  }
}
