/** The asset inventory shared by the two lookup scripts: `drop_domain`,
    the preprocessing of the exported asset table, and the row filters the
    searches use. Rows are records; the table is a sequence of rows. */
module Inventory {
  import opened Wrappers
  import opened Seqs
  import opened Text

  /** `drop_domain`: the text before the first '.', or the whole name when
      it has none. */
  function DropDomain(name: string): (r: string)
    ensures r <= name
    ensures '.' !in r
    ensures '.' !in name ==> r == name
    ensures '.' in name ==> |r| < |name| && name[|r|] == '.'
  {
    ContainsChar(name, '.');
    ContainsIffIndexOf(name, ".");
    match IndexOf(name, ".")
    case None => Split(name, ".")[0]
    case Some(i) =>
      PrefixBeforeFirst(name, ".", i);
      ContainsChar(name[..i], '.');
      assert name[i..i + 1] == ".";
      Split(name, ".")[0]
  }

  /** A dot-free prefix that ends at a '.' or at the end of the name is
      what `drop_domain` returns. */
  lemma DropDomainUnique(name: string, n: nat)
    requires n <= |name| && '.' !in name[..n]
    requires n < |name| ==> name[n] == '.'
    ensures DropDomain(name) == name[..n]
  {
    var d := DropDomain(name);
    assert d == name[..|d|];
  }

  /** Dropping the domain twice is dropping it once. */
  lemma DropDomainIdempotent(name: string)
    ensures DropDomain(DropDomain(name)) == DropDomain(name)
  {
  }

  /** Inventory names are domain-dropped then lower-cased, queries are
      lower-cased then domain-dropped: both give the same key. */
  lemma DropDomainLowerCommute(name: string)
    ensures DropDomain(Lower(name)) == Lower(DropDomain(name))
  {
    var d := DropDomain(name);
    var n := |d|;
    var low := Lower(name);
    LowerFacts(name);
    LowerPrefix(name, n);
    assert d == name[..n];
    assert '.' !in low[..n] by {
      forall i | 0 <= i < n
        ensures low[..n][i] != '.'
      {
        assert name[i] == d[i];
      }
    }
    DropDomainUnique(low, n);
  }

  /** A row of the exported asset table: `host_name` may be empty (NaN),
      `ip_address_all` lists addresses separated by ", ", and `details`
      stands for the columns the scripts only copy. */
  datatype Asset = Asset(assetId: int, hostName: Option<string>, ipAddressAll: string, details: seq<string>)

  /** A row after preprocessing: one address per row. */
  datatype Row = Row(assetId: int, hostName: Option<string>, ip: string, details: seq<string>)

  const AddressSeparator: string := ", "

  /** The host name as stored after preprocessing; an empty cell stays empty. */
  function CleanHost(host: Option<string>): Option<string>
  {
    match host
    case None => None
    case Some(name) => Some(Lower(DropDomain(name)))
  }

  /** The key a typed host name is searched with. */
  function QueryKey(query: string): string
  {
    DropDomain(Lower(query))
  }

  /** A cleaned host name is the search key of the original name: looking a
      host up by its own full name always hits its row. */
  lemma CleanHostIsQueryKey(name: string)
    ensures CleanHost(Some(name)) == Some(QueryKey(name))
  {
    DropDomainLowerCommute(name);
  }

  /** The rows one asset explodes into, one per listed address. */
  function Explode(a: Asset): seq<Row>
  {
    var ips := Split(a.ipAddressAll, AddressSeparator);
    seq(|ips|, k requires 0 <= k < |ips| => Row(a.assetId, CleanHost(a.hostName), ips[k], a.details))
  }

  function Addresses(rows: seq<Row>): seq<string>
  {
    seq(|rows|, k requires 0 <= k < |rows| => rows[k].ip)
  }

  /** Exploding keeps every other column and loses no address: the rows'
      addresses, joined back with ", ", give the original cell, and none of
      them holds a separator. */
  lemma ExplodeSpec(a: Asset)
    ensures |Explode(a)| >= 1
    ensures forall k :: 0 <= k < |Explode(a)| ==>
      && Explode(a)[k].assetId == a.assetId
      && Explode(a)[k].hostName == CleanHost(a.hostName)
      && Explode(a)[k].details == a.details
      && !Contains(Explode(a)[k].ip, AddressSeparator)
    ensures Join(Addresses(Explode(a)), AddressSeparator) == a.ipAddressAll
  {
    var ips := Split(a.ipAddressAll, AddressSeparator);
    SplitPiecesFree(a.ipAddressAll, AddressSeparator);
    JoinSplit(a.ipAddressAll, AddressSeparator);
    assert Addresses(Explode(a)) == ips;
  }

  /** The preprocessed inventory: each asset's rows in table order. */
  function Preprocess(assets: seq<Asset>): seq<Row>
  {
    Concat(seq(|assets|, i requires 0 <= i < |assets| => Explode(assets[i])))
  }

  /** Number of addresses listed over all assets. */
  function AddressCount(assets: seq<Asset>): nat
  {
    if assets == [] then 0
    else AddressCount(assets[..|assets| - 1]) + |Split(assets[|assets| - 1].ipAddressAll, AddressSeparator)|
  }

  /** The preprocessed table has one row per listed address. */
  lemma {:induction false} PreprocessSize(assets: seq<Asset>)
    ensures |Preprocess(assets)| == AddressCount(assets)
  {
    var parts := seq(|assets|, i requires 0 <= i < |assets| => Explode(assets[i]));
    SumLengthsCount(assets, parts);
  }

  lemma {:induction false} SumLengthsCount(assets: seq<Asset>, parts: seq<seq<Row>>)
    requires |parts| == |assets|
    requires forall i :: 0 <= i < |assets| ==> parts[i] == Explode(assets[i])
    ensures SumLengths(parts) == AddressCount(assets)
  {
    if assets != [] {
      var n := |assets| - 1;
      SumLengthsCount(assets[..n], parts[..n]);
    }
  }

  /** A row is in the preprocessed table iff it comes from some asset. */
  lemma PreprocessRows(assets: seq<Asset>, r: Row)
    ensures r in Preprocess(assets) <==> exists i :: 0 <= i < |assets| && r in Explode(assets[i])
  {
    var parts := seq(|assets|, i requires 0 <= i < |assets| => Explode(assets[i]));
    ConcatMembership(parts, r);
    if r in Preprocess(assets) {
      var i :| 0 <= i < |parts| && r in parts[i];
      assert r in Explode(assets[i]);
    }
    if exists i :: 0 <= i < |assets| && r in Explode(assets[i]) {
      var i :| 0 <= i < |assets| && r in Explode(assets[i]);
      assert r in parts[i];
    }
  }

  /** The row's address contains `term` (pandas `str.contains`). */
  predicate AddressContains(term: string, r: Row)
  {
    Contains(r.ip, term)
  }

  function AddressTest(term: string): Row -> bool
  {
    r => AddressContains(term, r)
  }

  /** The row's host name is present and contains `key` (`na=False`). */
  predicate HostContains(key: string, r: Row)
  {
    r.hostName.Some? && Contains(r.hostName.value, key)
  }

  function HostTest(key: string): Row -> bool
  {
    r => HostContains(key, r)
  }

  /** The rows of `db` whose host name contains the key of `query`. */
  function HostMatches(db: seq<Row>, query: string): seq<Row>
  {
    Filter(db, HostTest(QueryKey(query)))
  }

  /** Exactly the rows of the table whose host name is present and contains
      the key of the query. */
  lemma HostMatchesMeaning(db: seq<Row>, query: string)
    ensures forall k :: 0 <= k < |HostMatches(db, query)| ==>
      HostMatches(db, query)[k] in db && HostContains(QueryKey(query), HostMatches(db, query)[k])
    ensures forall k :: 0 <= k < |db| && HostContains(QueryKey(query), db[k]) ==> db[k] in HostMatches(db, query)
  {
    var rows := HostMatches(db, query);
    assert forall k :: 0 <= k < |rows| ==> HostTest(QueryKey(query))(rows[k]);
    assert forall k :: 0 <= k < |db| && HostContains(QueryKey(query), db[k]) ==> HostTest(QueryKey(query))(db[k]);
  }

  /** An empty query is a key every present host name contains: it selects
      every row with a host name and only those. */
  lemma EmptyQueryMatchesAllNamed(db: seq<Row>)
    ensures forall k :: 0 <= k < |db| && db[k].hostName.Some? ==> db[k] in HostMatches(db, "")
    ensures forall r :: r in HostMatches(db, "") ==> r.hostName.Some?
  {
    assert QueryKey("") == "";
    HostMatchesMeaning(db, "");
    forall k | 0 <= k < |db| && db[k].hostName.Some?
      ensures HostContains("", db[k])
    {
      assert OccursAt(db[k].hostName.value, "", 0);
    }
  }
}
