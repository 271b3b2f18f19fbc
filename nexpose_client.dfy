/** The API client object: it picks the API host from a fixed table, keeps
    the password Base64-encoded, and stores the site ids and scan engine ids
    it reads from the API. Replies are given as inputs: None stands for a
    reply whose status makes `raise_for_status` fail. */
module NexposeClient {
  import opened Wrappers
  import opened Text
  import opened Base64

  const ProductionUrl: string := "LINK TO YOUR PRODUCTION API SERVER"
  const DevUrl: string := "LINK TO YOUR DEV ENVIRONEMENT API SERVER"

  /** `valid_hosts`: menu key to API URL. */
  const ValidHosts: map<string, string> := map["1" := ProductionUrl, "2" := DevUrl]

  datatype InitError =
    | WrongSelection   // the typed menu key is not in the table
    | InvalidHostname  // the given host is not one of the table's URLs

  /** The host chosen at construction: the URL of the typed key, stripped
      of white space, when no host is given; otherwise the given host, which
      must be one of the table's URLs. */
  function SelectHost(host: Option<string>, selection: string): (r: Result<string, InitError>)
    ensures r.Success? ==> r.value in ValidHosts.Values
    ensures host.None? ==> (r.Success? <==> Strip(selection) in ValidHosts)
    ensures host.None? && r.Success? ==> r.value == ValidHosts[Strip(selection)]
    ensures host.Some? ==> (r.Success? <==> host.value in ValidHosts.Values)
    ensures host.Some? && r.Success? ==> r.value == host.value
    ensures r.Failure? ==> r.error == if host.None? then WrongSelection else InvalidHostname
  {
    match host
    case None =>
      var key := Strip(selection);
      if key in ValidHosts then Success(ValidHosts[key]) else Failure(WrongSelection)
    case Some(h) =>
      if h in ValidHosts.Values then Success(h) else Failure(InvalidHostname)
  }

  /** White space around the typed key does not matter. */
  lemma SelectionIgnoresSpaces()
    ensures SelectHost(None, " 2 ") == Success(DevUrl)
  {
    assert IsSpace(' ') && !IsSpace('2');
    assert LeadingSpaces(" 2 ") == 1;
    assert TrailingEnd(" 2 ", 1) == 2;
    assert Strip(" 2 ") == "2";
  }

  /** The stored credentials: the user name and the Base64 text of the
      password's bytes. */
  datatype Credentials = Credentials(user: string, secret: string)

  /** A record of an API listing; only its id is used. */
  datatype Record = Record(id: int, name: string)

  /** The ids of the records, in order. */
  function Ids(records: seq<Record>): (ids: seq<int>)
    ensures |ids| == |records|
    ensures forall k :: 0 <= k < |records| ==> ids[k] == records[k].id
  {
    seq(|records|, k requires 0 <= k < |records| => records[k].id)
  }

  /** A mutable list of ids. */
  class IdList {
    var items: seq<int>

    constructor ()
      ensures items == []
    {
      items := [];
    }
  }

  class Client {
    var host: string
    var auth: Credentials
    var siteIds: Option<seq<int>>
    /** The scan engine id list; the default argument is one list object
        shared by every client constructed without one. */
    const scanEngineIds: IdList

    constructor (host: string, auth: Credentials, engines: IdList)
      ensures this.host == host && this.auth == auth
      ensures siteIds.None? && scanEngineIds == engines
    {
      this.host := host;
      this.auth := auth;
      siteIds := None;
      scanEngineIds := engines;
    }

    /** `get_auth`: the user name and the decoded password. */
    function GetAuth(): (r: (string, Option<seq<byte>>))
      reads this
      ensures r.0 == auth.user
    {
      (auth.user, Decode(auth.secret))
    }

    /** `get_siteIDs`: the ids of page 0's sites replace `site_IDs`; no
        further page is read. A failed reply changes nothing. */
    method GetSiteIds(reply: Option<seq<Record>>) returns (ok: bool)
      modifies this
      ensures ok <==> reply.Some?
      ensures !ok ==> unchanged(this)
      ensures ok ==> siteIds == Some(Ids(reply.value))
      ensures host == old(host) && auth == old(auth)
    {
      if reply.None? {
        return false;
      }
      siteIds := Some(Ids(reply.value));
      ok := true;
    }

    /** `get_scanEngines`: each engine id of page 0 is appended to the id
        list in row order; the list is never cleared. A reply without
        engines leaves the table without its id column, and the type
        conversion of that column raises before anything is appended. */
    method GetScanEngines(reply: Option<seq<Record>>) returns (ok: bool)
      modifies scanEngineIds
      ensures ok <==> reply.Some? && reply.value != []
      ensures !ok ==> unchanged(scanEngineIds)
      ensures ok ==> scanEngineIds.items == old(scanEngineIds.items) + Ids(reply.value)
    {
      if reply.None? || reply.value == [] {
        return false;
      }
      var engines := reply.value;
      for i := 0 to |engines|
        invariant scanEngineIds.items == old(scanEngineIds.items) + Ids(engines[..i])
      {
        assert Ids(engines[..i + 1]) == Ids(engines[..i]) + [engines[i].id];
        scanEngineIds.items := scanEngineIds.items + [engines[i].id];
      }
      assert engines[..|engines|] == engines;
      ok := true;
    }
  }

  /** `get_auth` gives back the password whose encoding is stored. */
  lemma GetAuthRoundTrip(c: Client, password: seq<byte>)
    requires c.auth.secret == Encode(password)
    ensures c.GetAuth() == (c.auth.user, Some(password))
  {
    DecodeEncode(password);
  }

  /** Construction: the host is validated first; then the credentials are
      the given pair, or the typed user name with the Base64 text of the
      typed password. */
  method Connect(host: Option<string>, selection: string, auth: Option<Credentials>,
                 user: string, password: seq<byte>, defaultEngines: IdList)
    returns (r: Result<Client, InitError>)
    ensures SelectHost(host, selection).Failure? ==> r == Failure(SelectHost(host, selection).error)
    ensures SelectHost(host, selection).Success? ==>
      && r.Success? && fresh(r.value)
      && r.value.host == SelectHost(host, selection).value
      && r.value.auth == (if auth.Some? then auth.value else Credentials(user, Encode(password)))
      && r.value.siteIds.None?
      && r.value.scanEngineIds == defaultEngines
  {
    var chosen := SelectHost(host, selection);
    if chosen.Failure? {
      return Failure(chosen.error);
    }
    var credentials := if auth.Some? then auth.value else Credentials(user, Encode(password));
    var client := new Client(chosen.value, credentials, defaultEngines);
    r := Success(client);
  }

  /** Two clients built on the default list share it: the engines one of
      them reads show up in the other's list, and reading again appends a
      second copy. */
  method SharedDefaultList(user: string, password: seq<byte>, reply: seq<Record>)
    returns (a: Client, b: Client)
    ensures a.scanEngineIds == b.scanEngineIds
    ensures b.scanEngineIds.items == Ids(reply) + Ids(reply)
  {
    var shared := new IdList();
    var credentials := Credentials(user, Encode(password));
    a := new Client(ProductionUrl, credentials, shared);
    b := new Client(DevUrl, credentials, shared);
    var _ := a.GetScanEngines(Some(reply));
    var _ := b.GetScanEngines(Some(reply));
  }
}
