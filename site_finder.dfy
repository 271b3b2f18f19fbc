/** The site finder: every site's included and excluded address entries are
    expanded (`IP_rangeSplitter`), flattened (`flatten`), and an address is
    resolved to the site whose included targets hold it and whose excluded
    targets do not; when several sites qualify the last one wins. */
module SiteFinder {
  import opened Wrappers
  import opened Seqs
  import opened Text
  import opened Ipv4

  /** What `IP_rangeSplitter` returns for one address entry. */
  datatype Expansion =
    | Addresses(addrs: seq<string>)  // a "start - end" entry: the list of dotted quads
    | Literal(text: string)          // any other entry, returned as the bare string

  /** `inet_aton` raised on one end of a range. */
  datatype RangeError = BadAddress

  const RangeSeparator: string := " - "

  /** `[inet_ntoa(pack('>I', i)) for i in range(a, b + 1)]`. */
  function AddressRange(a: nat, b: nat): seq<string>
    requires a < AddressSpace && b < AddressSpace
  {
    var n := if a <= b then b - a + 1 else 0;
    seq(n, k requires 0 <= k < n => FormatAddress(a + k))
  }

  /** `IP_rangeSplitter`: a range entry becomes the list of every address from
      its start to its end; any other entry is returned unchanged. */
  function RangeSplit(entry: string): (r: Result<Expansion, RangeError>)
    ensures !Contains(entry, RangeSeparator) ==> r == Success(Literal(entry))
    ensures Contains(entry, RangeSeparator) ==>
      var parts := Split(entry, RangeSeparator);
      (r.Failure? <==> ParseAddress(parts[0]).None? || ParseAddress(parts[1]).None?)
      && (r.Success? ==> r.value.Addresses?)
  {
    if Contains(entry, RangeSeparator) then
      var parts := Split(entry, RangeSeparator);
      match (ParseAddress(parts[0]), ParseAddress(parts[1]))
      case (Some(a), Some(b)) => Success(Addresses(AddressRange(a, b)))
      case _ => Failure(BadAddress)
    else Success(Literal(entry))
  }

  /** The addresses from `a` to `b`: b - a + 1 of them (none when a > b),
      whose integer values climb by one from `a`. */
  lemma AddressRangeValues(a: nat, b: nat)
    requires a < AddressSpace && b < AddressSpace
    ensures |AddressRange(a, b)| == (if a <= b then b - a + 1 else 0)
    ensures forall k :: 0 <= k < |AddressRange(a, b)| ==> ParseAddress(AddressRange(a, b)[k]) == Some(a + k)
  {
    forall k | 0 <= k < |AddressRange(a, b)|
      ensures ParseAddress(AddressRange(a, b)[k]) == Some(a + k)
    {
      AddressRangeAt(a, b, k);
    }
  }

  lemma AddressRangeAt(a: nat, b: nat, k: nat)
    requires a < AddressSpace && b < AddressSpace
    requires k < |AddressRange(a, b)|
    ensures ParseAddress(AddressRange(a, b)[k]) == Some(a + k)
  {
    FormattedParsesBack(AddressRange(a, b)[k], a + k);
  }

  /** A range "a - b" expands to b - a + 1 addresses (none when a > b) whose
      integer values climb by one from a; the first is the start text and
      the last the end text. */
  lemma RangeSplitRange(entry: string, a: nat, b: nat)
    requires Contains(entry, RangeSeparator)
    requires ParseAddress(Split(entry, RangeSeparator)[0]) == Some(a)
    requires ParseAddress(Split(entry, RangeSeparator)[1]) == Some(b)
    ensures RangeSplit(entry).Success? && RangeSplit(entry).value.Addresses?
    ensures
      var addrs := RangeSplit(entry).value.addrs;
      && |addrs| == (if a <= b then b - a + 1 else 0)
      && (forall k :: 0 <= k < |addrs| ==> ParseAddress(addrs[k]) == Some(a + k))
      && (a <= b ==> addrs[0] == Split(entry, RangeSeparator)[0]
                     && addrs[|addrs| - 1] == Split(entry, RangeSeparator)[1])
  {
    RangeSplitIsRange(entry, a, b);
    AddressRangeValues(a, b);
    if a <= b {
      AddressRangeEnds(a, b);
      ParsedFormatsBack(Split(entry, RangeSeparator)[0], a);
      ParsedFormatsBack(Split(entry, RangeSeparator)[1], b);
    }
  }

  lemma RangeSplitIsRange(entry: string, a: nat, b: nat)
    requires Contains(entry, RangeSeparator)
    requires ParseAddress(Split(entry, RangeSeparator)[0]) == Some(a)
    requires ParseAddress(Split(entry, RangeSeparator)[1]) == Some(b)
    ensures a < AddressSpace && b < AddressSpace
    ensures RangeSplit(entry) == Success(Addresses(AddressRange(a, b)))
  {
  }

  lemma AddressRangeEnds(a: nat, b: nat)
    requires a < AddressSpace && b < AddressSpace && a <= b
    ensures AddressRange(a, b)[0] == FormatAddress(a)
    ensures AddressRange(a, b)[|AddressRange(a, b)| - 1] == FormatAddress(b)
  {
    var n := b - a + 1;
    var r := AddressRange(a, b);
    assert |r| == n;
    assert r[n - 1] == FormatAddress(a + (n - 1));
    assert a + (n - 1) == b;
  }

  /** What `for sub in item` visits for one expanded entry: the addresses of
      a range, or the single characters of a literal string. */
  function ItemsOf(e: Expansion): seq<string>
  {
    match e
    case Addresses(addrs) => addrs
    case Literal(text) => seq(|text|, i requires 0 <= i < |text| => [text[i]])
  }

  function ItemLists(entries: seq<Expansion>): seq<seq<string>>
  {
    seq(|entries|, i requires 0 <= i < |entries| => ItemsOf(entries[i]))
  }

  /** The flattened target list of a site; an unset list reads as empty. */
  function Flat(targets: Option<seq<Expansion>>): seq<string>
  {
    Concat(ItemLists(targets.GetOr([])))
  }

  lemma ItemListsSnoc(entries: seq<Expansion>, i: nat)
    requires i < |entries|
    ensures ItemLists(entries[..i + 1]) == ItemLists(entries[..i]) + [ItemsOf(entries[i])]
  {
  }

  /** `flatten`: the items of every entry, entry by entry, in order. */
  method Flatten(entries: seq<Expansion>) returns (flat: seq<string>)
    ensures flat == Concat(ItemLists(entries))
  {
    flat := [];
    for i := 0 to |entries|
      invariant flat == Concat(ItemLists(entries[..i]))
    {
      var item := ItemsOf(entries[i]);
      ghost var before := flat;
      for j := 0 to |item|
        invariant flat == before + item[..j]
      {
        flat := flat + [item[j]];
        assert item[..j + 1] == item[..j] + [item[j]];
      }
      assert item[..|item|] == item;
      ItemListsSnoc(entries, i);
      ConcatSnoc(ItemLists(entries[..i]), item);
    }
    assert entries[..|entries|] == entries;
  }

  /** The flattened list holds every item of every entry, in order, and
      nothing else; its length is the sum of the entries' item counts. */
  lemma FlattenContents(entries: seq<Expansion>, x: string)
    ensures |Concat(ItemLists(entries))| == SumLengths(ItemLists(entries))
    ensures x in Concat(ItemLists(entries)) <==> exists i :: 0 <= i < |entries| && x in ItemsOf(entries[i])
  {
    ConcatMembership(ItemLists(entries), x);
    assert forall i :: 0 <= i < |entries| ==> ItemLists(entries)[i] == ItemsOf(entries[i]);
    if x in Concat(ItemLists(entries)) {
      var i :| 0 <= i < |entries| && x in ItemLists(entries)[i];
      assert x in ItemsOf(entries[i]);
    }
  }

  /** A literal entry contributes only one-character strings, so an address
      of any other length matches a flattened list only through its ranges. */
  lemma MultiCharMatchesOnlyRanges(entries: seq<Expansion>, ip: string)
    requires |ip| != 1
    ensures ip in Concat(ItemLists(entries)) <==>
      exists i :: 0 <= i < |entries| && entries[i].Addresses? && ip in entries[i].addrs
  {
    FlattenContents(entries, ip);
    forall i | 0 <= i < |entries| && entries[i].Literal?
      ensures ip !in ItemsOf(entries[i])
    {
    }
  }

  /** The reply of the included- or excluded-targets endpoint: the list under
      'addresses', or None when the key is absent or the reply is unusable. */
  datatype SiteResponse = SiteResponse(
    id: int,
    name: string,
    included: Option<seq<string>>,
    excluded: Option<seq<string>>)

  /** One row of the site-targets table; None is a target list left unset. */
  datatype SiteRow = SiteRow(
    siteId: int,
    name: string,
    included: Option<seq<Expansion>>,
    excluded: Option<seq<Expansion>>)

  /** The values of a list of outcomes, or None as soon as one of them failed. */
  function Collect<T, E>(rs: seq<Result<T, E>>): Option<seq<T>>
  {
    if rs == [] then Some([])
    else
      match (Collect(rs[..|rs| - 1]), rs[|rs| - 1])
      case (Some(t), Success(e)) => Some(t + [e])
      case _ => None
  }

  lemma {:induction false} CollectSucceeds<T, E>(rs: seq<Result<T, E>>)
    ensures Collect(rs).Some? <==> forall k :: 0 <= k < |rs| ==> rs[k].Success?
  {
    if rs != [] {
      var init := rs[..|rs| - 1];
      CollectSucceeds(init);
      assert forall k :: 0 <= k < |init| ==> init[k] == rs[k];
    }
  }

  lemma {:induction false} CollectValues<T, E>(rs: seq<Result<T, E>>)
    requires Collect(rs).Some?
    ensures |Collect(rs).value| == |rs|
    ensures forall k :: 0 <= k < |rs| ==> rs[k].Success? && Collect(rs).value[k] == rs[k].value
  {
    if rs != [] {
      var init := rs[..|rs| - 1];
      CollectValues(init);
      assert forall k :: 0 <= k < |init| ==> init[k] == rs[k];
    }
  }

  /** What `IP_rangeSplitter` does to each entry of an address list. */
  function Expansions(addrs: seq<string>): seq<Result<Expansion, RangeError>>
  {
    seq(|addrs|, k requires 0 <= k < |addrs| => RangeSplit(addrs[k]))
  }

  lemma ExpansionsSnoc(addrs: seq<string>, i: nat)
    requires i < |addrs|
    ensures Expansions(addrs[..i + 1]) == Expansions(addrs[..i]) + [RangeSplit(addrs[i])]
  {
    var l, r := Expansions(addrs[..i + 1]), Expansions(addrs[..i]) + [RangeSplit(addrs[i])];
    assert |l| == |r|;
    forall k | 0 <= k < |l|
      ensures l[k] == r[k]
    {
      assert addrs[..i + 1][k] == addrs[k];
    }
  }

  /** The expanded entries of an address list, or None when any entry fails:
      the exception leaves the table cell unset. */
  function ExpandAll(addrs: seq<string>): Option<seq<Expansion>>
  {
    Collect(Expansions(addrs))
  }

  /** The list is set iff every entry expands. */
  lemma ExpandAllSucceeds(addrs: seq<string>)
    ensures ExpandAll(addrs).Some? <==> forall k :: 0 <= k < |addrs| ==> RangeSplit(addrs[k]).Success?
  {
    var rs := Expansions(addrs);
    CollectSucceeds(rs);
    assert forall k :: 0 <= k < |addrs| ==> rs[k] == RangeSplit(addrs[k]);
  }

  /** A set list holds each entry's own expansion, one per entry, in order. */
  lemma ExpandAllValues(addrs: seq<string>)
    requires ExpandAll(addrs).Some?
    ensures |ExpandAll(addrs).value| == |addrs|
    ensures forall k :: 0 <= k < |addrs| ==>
      RangeSplit(addrs[k]).Success? && ExpandAll(addrs).value[k] == RangeSplit(addrs[k]).value
  {
    var rs := Expansions(addrs);
    CollectValues(rs);
    assert forall k :: 0 <= k < |addrs| ==> rs[k] == RangeSplit(addrs[k]);
  }

  function ExpandTargets(reply: Option<seq<string>>): Option<seq<Expansion>>
  {
    match reply
    case None => None
    case Some(addrs) => ExpandAll(addrs)
  }

  /** The body of one `try` block of `get_site_targets`: expand entry after
      entry and give up on the first one that raises. */
  method ExpandEntries(addrs: seq<string>) returns (targets: Option<seq<Expansion>>)
    ensures targets == ExpandAll(addrs)
  {
    var acc: seq<Expansion> := [];
    var i := 0;
    while i < |addrs|
      invariant 0 <= i <= |addrs|
      invariant ExpandAll(addrs[..i]) == Some(acc)
    {
      var r := RangeSplit(addrs[i]);
      if r.Failure? {
        CollectSucceeds(Expansions(addrs));
        assert Expansions(addrs)[i] == r;
        return None;
      }
      ExpansionsSnoc(addrs, i);
      acc := acc + [r.value];
      i := i + 1;
    }
    assert addrs[..i] == addrs;
    return Some(acc);
  }

  /** The table row of one site: its id and name with both target lists
      expanded or left unset. */
  function RowOf(reply: SiteResponse): SiteRow
  {
    SiteRow(reply.id, reply.name, ExpandTargets(reply.included), ExpandTargets(reply.excluded))
  }

  /** `get_site_targets`: one row per site, in site order, each target list
      expanded or left unset. Without any site the table has no "Site ID"
      column, and converting that column's type raises: None. */
  method GetSiteTargets(replies: seq<SiteResponse>) returns (table: Option<seq<SiteRow>>)
    ensures table.None? <==> replies == []
    ensures table.Some? ==> |table.value| == |replies|
    ensures table.Some? ==> forall k :: 0 <= k < |replies| ==> table.value[k] == RowOf(replies[k])
  {
    var rows := [];
    for i := 0 to |replies|
      invariant |rows| == i
      invariant forall k :: 0 <= k < i ==> rows[k] == RowOf(replies[k])
    {
      var reply := replies[i];
      var inc: Option<seq<Expansion>> := None;
      var exc: Option<seq<Expansion>> := None;
      if reply.included.Some? {
        inc := ExpandEntries(reply.included.value);
      }
      if reply.excluded.Some? {
        exc := ExpandEntries(reply.excluded.value);
      }
      assert SiteRow(reply.id, reply.name, inc, exc) == RowOf(reply);
      rows := rows + [SiteRow(reply.id, reply.name, inc, exc)];
    }
    if rows == [] {
      return None;
    }
    table := Some(rows);
  }

  /** A site takes the address when its included targets hold it and its
      excluded targets do not. */
  predicate Qualifies(ip: string, row: SiteRow)
  {
    ip in Flat(row.included) && ip !in Flat(row.excluded)
  }

  function QualifiesFor(ip: string): SiteRow -> bool
  {
    row => Qualifies(ip, row)
  }

  /** The `output` dictionary after the resolution loop. */
  function Resolution(ip: string, rows: seq<SiteRow>): map<string, string>
  {
    OutputFor(ip, rows, LastWhere(rows, QualifiesFor(ip)))
  }

  /** The resolution has at most the queried address as key, holds it iff
      some site qualifies, and maps it to the name of the last qualifying
      site. */
  lemma ResolutionMeaning(ip: string, rows: seq<SiteRow>)
    ensures Resolution(ip, rows).Keys <= {ip}
    ensures ip in Resolution(ip, rows) <==> exists i :: 0 <= i < |rows| && Qualifies(ip, rows[i])
    ensures ip in Resolution(ip, rows) ==> exists i :: (0 <= i < |rows| && Qualifies(ip, rows[i])
      && Resolution(ip, rows)[ip] == rows[i].name
      && forall j :: i < j < |rows| ==> !Qualifies(ip, rows[j]))
  {
    var last := LastWhere(rows, QualifiesFor(ip));
    if last.Some? {
      var i := last.value;
      assert QualifiesFor(ip)(rows[i]);
      forall j | i < j < |rows|
        ensures !Qualifies(ip, rows[j])
      {
        assert !QualifiesFor(ip)(rows[j]);
      }
    } else {
      forall i | 0 <= i < |rows|
        ensures !Qualifies(ip, rows[i])
      {
        assert !QualifiesFor(ip)(rows[i]);
      }
    }
  }

  /** One more site: it takes the address when it qualifies, and otherwise
      the earlier sites decide. */
  lemma ResolutionSnoc(ip: string, rows: seq<SiteRow>, row: SiteRow)
    ensures Resolution(ip, rows + [row]) ==
      if Qualifies(ip, row) then map[ip := row.name] else Resolution(ip, rows)
  {
    LastWhereSnoc(rows, row, QualifiesFor(ip));
    assert QualifiesFor(ip)(row) <==> Qualifies(ip, row);
    var last := LastWhere(rows, QualifiesFor(ip));
    if last.Some? {
      assert (rows + [row])[last.value] == rows[last.value];
    }
  }

  /** The dictionary holding the name of the site at index `last`, if any. */
  function OutputFor(ip: string, rows: seq<SiteRow>, last: Option<nat>): map<string, string>
    requires last.Some? ==> last.value < |rows|
  {
    match last
    case None => map[]
    case Some(i) => map[ip := rows[i].name]
  }

  /** The resolution loop of the single-address option: every site in turn,
      overwriting `output[IP]` on each qualifying one. */
  method Resolve(ip: string, rows: seq<SiteRow>) returns (output: map<string, string>)
    ensures output == Resolution(ip, rows)
  {
    output := map[];
    for i := 0 to |rows|
      invariant output == Resolution(ip, rows[..i])
    {
      var inc := Flatten(rows[i].included.GetOr([]));
      var exc := Flatten(rows[i].excluded.GetOr([]));
      ResolutionSnoc(ip, rows[..i], rows[i]);
      assert rows[..i + 1] == rows[..i] + [rows[i]];
      if ip in inc && ip !in exc {
        output := output[ip := rows[i].name];
      }
    }
    assert rows[..|rows|] == rows;
  }

  /** The list option: the file is split on '\n' and every line, the empty
      trailing one included, is resolved on its own with a fresh `output`. */
  method ResolveLines(contents: string, rows: seq<SiteRow>) returns (outputs: seq<map<string, string>>)
    ensures |outputs| == |Split(contents, "\n")|
    ensures forall k :: 0 <= k < |outputs| ==> outputs[k] == Resolution(Split(contents, "\n")[k], rows)
  {
    var lines := Split(contents, "\n");
    outputs := [];
    for i := 0 to |lines|
      invariant |outputs| == i
      invariant forall k :: 0 <= k < i ==> outputs[k] == Resolution(lines[k], rows)
    {
      var output := Resolve(lines[i], rows);
      outputs := outputs + [output];
    }
  }

  /** A literal entry is split into characters by `flatten`, so a site that
      lists an address as a literal neither includes nor excludes it. With
      site A covering the address by a range and excluding it by a literal,
      and site B including it by a literal, the address resolves to A. */
  lemma LiteralOverlapResolvesToRangeSite(ip: string, a: SiteRow, b: SiteRow)
    requires |ip| > 1
    requires a.included.Some?
    requires exists i :: (0 <= i < |a.included.value|
      && a.included.value[i].Addresses? && ip in a.included.value[i].addrs)
    requires a.excluded == Some([Literal(ip)])
    requires b.included == Some([Literal(ip)])
    ensures Resolution(ip, [a, b]) == map[ip := a.name]
  {
    MultiCharMatchesOnlyRanges(a.included.value, ip);
    MultiCharMatchesOnlyRanges(a.excluded.value, ip);
    MultiCharMatchesOnlyRanges(b.included.value, ip);
    assert Qualifies(ip, [a, b][0]);
    assert !Qualifies(ip, [a, b][1]);
  }
}
