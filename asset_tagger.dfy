/** The asset tagger: looks a tag up by id or by name over the tag list,
    asks for confirmation, then issues one PUT (tag) or DELETE (untag) per
    asset id line of the input file and writes a log that reports every call
    as a success. */
module AssetTagger {
  import opened Wrappers
  import opened Seqs
  import opened Text

  /** A tag resource: only the fields the script reads. */
  datatype Tag = Tag(id: int, name: string)

  /** The first reply of GET /tags: page 0's resources and the page count. */
  datatype TagPage = TagPage(resources: seq<Tag>, totalPages: int)

  datatype FetchError =
    | NameError            // the page loop refers to names that are not bound
    | HttpError(page: nat) // raise_for_status on a later page

  predicate NamedAs(tagName: string, tag: Tag)
  {
    tag.name == tagName
  }

  function NameTest(tagName: string): Tag -> bool
  {
    tag => NamedAs(tagName, tag)
  }

  /** `get_tag_id`: a dictionary whose only possible key is the requested
      name, present iff a tag has exactly that name (case-sensitive), mapped
      to the id of the last such tag. */
  method GetTagId(tags: seq<Tag>, tagName: string) returns (tagDict: map<string, int>)
    ensures tagDict.Keys <= {tagName}
    ensures tagName in tagDict <==> exists i :: 0 <= i < |tags| && tags[i].name == tagName
    ensures tagName in tagDict ==> exists i :: (0 <= i < |tags| && tags[i].name == tagName
      && tagDict[tagName] == tags[i].id
      && forall j :: i < j < |tags| ==> tags[j].name != tagName)
  {
    tagDict := map[];
    for i := 0 to |tags|
      invariant tagDict == match LastWhere(tags[..i], NameTest(tagName))
        case None => map[]
        case Some(j) => map[tagName := tags[j].id]
    {
      if tags[i].name == tagName {
        tagDict := tagDict[tags[i].name := tags[i].id];
      }
      LastWhereSnoc(tags[..i], tags[i], NameTest(tagName));
      assert tags[..i + 1] == tags[..i] + [tags[i]];
    }
    assert tags[..|tags|] == tags;
    ghost var last := LastWhere(tags, NameTest(tagName));
    if last.Some? {
      assert NamedAs(tagName, tags[last.value]);
    }
  }

  /** The page loop as written: with more than one page it reads the unbound
      names `url` and `self` and the run fails. */
  function CollectTagsAsWritten(first: TagPage): Result<seq<Tag>, FetchError>
  {
    if first.totalPages > 1 then Failure(NameError) else Success(first.resources)
  }

  /** The tag list after pages 1 .. n - 1 have been fetched and appended. */
  function Fetched(first: TagPage, fetch: nat -> Option<seq<Tag>>, n: nat): Result<seq<Tag>, FetchError>
  {
    if n <= 1 then Success(first.resources)
    else
      match Fetched(first, fetch, n - 1)
      case Failure(e) => Failure(e)
      case Success(acc) =>
        match fetch(n - 1)
        case None => Failure(HttpError(n - 1))
        case Some(resources) => Success(acc + resources)
  }

  /** The intended page loop: page 0 and then every further page announced
      by `totalPages`, all or nothing. */
  function AllPages(first: TagPage, fetch: nat -> Option<seq<Tag>>): Result<seq<Tag>, FetchError>
  {
    Fetched(first, fetch, if first.totalPages < 1 then 1 else first.totalPages)
  }

  /** The resources of pages 1 .. n - 1, each read as fetched. */
  function LaterPages(fetch: nat -> Option<seq<Tag>>, n: nat): seq<seq<Tag>>
  {
    seq(if n < 1 then 0 else n - 1, i requires 0 <= i => fetch(i + 1).GetOr([]))
  }

  /** Fetching pages 1 .. n - 1 succeeds iff every one of them is served. */
  lemma {:induction false} FetchedSucceeds(first: TagPage, fetch: nat -> Option<seq<Tag>>, n: nat)
    ensures Fetched(first, fetch, n).Success? <==> forall p :: 1 <= p < n ==> fetch(p).Some?
  {
    if n > 1 {
      FetchedSucceeds(first, fetch, n - 1);
    }
  }

  lemma LaterPagesSnoc(fetch: nat -> Option<seq<Tag>>, n: nat)
    requires n >= 1
    ensures LaterPages(fetch, n + 1) == LaterPages(fetch, n) + [fetch(n).GetOr([])]
  {
  }

  lemma FetchedStep(first: TagPage, fetch: nat -> Option<seq<Tag>>, n: nat)
    requires n > 1 && Fetched(first, fetch, n).Success?
    ensures Fetched(first, fetch, n - 1).Success? && fetch(n - 1).Some?
    ensures Fetched(first, fetch, n).value == Fetched(first, fetch, n - 1).value + fetch(n - 1).value
  {
  }

  /** A successful fetch is page 0 followed by pages 1 .. n - 1, in order. */
  lemma {:induction false} FetchedValue(first: TagPage, fetch: nat -> Option<seq<Tag>>, n: nat)
    requires Fetched(first, fetch, n).Success?
    ensures Fetched(first, fetch, n).value == first.resources + Concat(LaterPages(fetch, n))
  {
    if n > 1 {
      FetchedStep(first, fetch, n);
      FetchedValue(first, fetch, n - 1);
      var earlier := LaterPages(fetch, n - 1);
      var page := fetch(n - 1).value;
      LaterPagesSnoc(fetch, n - 1);
      assert LaterPages(fetch, n) == earlier + [page];
      ConcatSnoc(earlier, page);
      assert Fetched(first, fetch, n).value == (first.resources + Concat(earlier)) + page;
    } else {
      assert LaterPages(fetch, n) == [];
    }
  }

  /** With at most one page the written loop and the intended one agree:
      the list is page 0's resources. */
  lemma SinglePageAgrees(first: TagPage, fetch: nat -> Option<seq<Tag>>)
    requires first.totalPages <= 1
    ensures CollectTagsAsWritten(first) == AllPages(first, fetch) == Success(first.resources)
  {
  }

  /** Two pages, both served: the written loop fails where the intended one
      returns both pages in order. */
  lemma SecondPageBreaksAsWritten()
    ensures
      var first := TagPage([Tag(1, "a")], 2);
      var fetch := (p: nat) => Some([Tag(2, "b")]);
      && CollectTagsAsWritten(first) == Failure(NameError)
      && AllPages(first, fetch) == Success([Tag(1, "a"), Tag(2, "b")])
  {
    var first := TagPage([Tag(1, "a")], 2);
    var fetch := (p: nat) => Some([Tag(2, "b")]);
    assert Fetched(first, fetch, 1) == Success([Tag(1, "a")]);
    assert [Tag(1, "a")] + [Tag(2, "b")] == [Tag(1, "a"), Tag(2, "b")];
  }

  /** The intended page loop: one GET per announced page, in page order; a
      failed page abandons the whole list. `requests` counts the GETs. */
  method CollectTags(first: TagPage, fetch: nat -> Option<seq<Tag>>)
    returns (r: Result<seq<Tag>, FetchError>, requests: nat)
    ensures r == AllPages(first, fetch)
    ensures r.Success? ==> requests == (if first.totalPages < 1 then 1 else first.totalPages)
  {
    var all := first.resources;
    requests := 1;
    var page := 1;
    while page < first.totalPages
      invariant 1 <= page <= (if first.totalPages < 1 then 1 else first.totalPages)
      invariant Fetched(first, fetch, page) == Success(all)
      invariant requests == page
    {
      var response := fetch(page);
      requests := requests + 1;
      if response.None? {
        assert Fetched(first, fetch, page + 1) == Failure(HttpError(page));
        FetchedFailurePersists(first, fetch, page + 1, first.totalPages);
        return Failure(HttpError(page)), requests;
      }
      assert Fetched(first, fetch, page + 1) == Success(all + response.value);
      all := all + response.value;
      page := page + 1;
    }
    r := Success(all);
  }

  /** Once a page has failed, fetching more pages cannot succeed. */
  lemma {:induction false} FetchedFailurePersists(first: TagPage, fetch: nat -> Option<seq<Tag>>, m: nat, n: nat)
    requires m <= n
    requires Fetched(first, fetch, m).Failure?
    ensures Fetched(first, fetch, n) == Fetched(first, fetch, m)
    decreases n - m
  {
    if m < n {
      FetchedFailurePersists(first, fetch, m + 1, n);
    }
  }

  /** How the tag is requested: options 1 and 3 by id, options 2 and 4 by name. */
  datatype Query = ById(id: int) | ByName(name: string)

  /** A menu option: `untag` for options 3 and 4. */
  datatype Choice = Choice(untag: bool, query: Query)

  /** The script-level variables that survive from one menu round to the
      next: `tag_id` (None until set) and `proceed` (None while unbound). */
  datatype Globals = Globals(tagId: Option<int>, proceed: Option<string>)

  predicate Matches(query: Query, tag: Tag)
  {
    match query
    case ById(id) => tag.id == id
    case ByName(name) => tag.name == name
  }

  function MatchTest(query: Query): Tag -> bool
  {
    tag => Matches(query, tag)
  }

  /** The globals on entry to the tag scan: the id options first assign the
      requested id to `tag_id`. */
  function Entry(choice: Choice, g: Globals): Globals
  {
    match choice.query
    case ById(id) => g.(tagId := Some(id))
    case ByName(_) => g
  }

  /** The globals after a scan, with the number of prompts shown. */
  datatype ScanState = ScanState(globals: Globals, prompts: nat)

  /** The tag scan over `tags` in order: a matching tag sets `tag_id` and
      prompts, and `answer(k)` is the reply to the k-th prompt. */
  function Scan(tags: seq<Tag>, query: Query, g: Globals, answer: nat -> string): ScanState
  {
    if tags == [] then ScanState(g, 0)
    else
      var before := Scan(tags[..|tags| - 1], query, g, answer);
      var tag := tags[|tags| - 1];
      if Matches(query, tag) then ScanState(Globals(Some(tag.id), Some(answer(before.prompts))), before.prompts + 1)
      else before
  }

  /** The globals after the scan. */
  function ScanResult(tags: seq<Tag>, query: Query, g: Globals, answer: nat -> string): Globals
  {
    Scan(tags, query, g, answer).globals
  }

  /** One prompt per matching tag. */
  lemma {:induction false} ScanPrompts(tags: seq<Tag>, query: Query, g: Globals, answer: nat -> string)
    ensures Scan(tags, query, g, answer).prompts == |Filter(tags, MatchTest(query))|
  {
    if tags != [] {
      ScanPrompts(tags[..|tags| - 1], query, g, answer);
    }
  }

  /** `proceed` ends as the answer to the last prompt; with no prompt it
      keeps its value from an earlier round. */
  lemma {:induction false} ScanProceed(tags: seq<Tag>, query: Query, g: Globals, answer: nat -> string)
    ensures var n := |Filter(tags, MatchTest(query))|;
      ScanResult(tags, query, g, answer).proceed == if n > 0 then Some(answer(n - 1)) else g.proceed
  {
    ScanPrompts(tags, query, g, answer);
    if tags != [] {
      ScanProceed(tags[..|tags| - 1], query, g, answer);
      ScanPrompts(tags[..|tags| - 1], query, g, answer);
    }
  }

  /** Every matching tag sets `tag_id`: it ends as the id of the last match
      at or after any given match. */
  lemma {:induction false} ScanKeepsLastMatch(tags: seq<Tag>, query: Query, g: Globals, answer: nat -> string, i: nat)
    requires i < |tags| && Matches(query, tags[i])
    ensures exists m :: (i <= m < |tags| && Matches(query, tags[m])
      && ScanResult(tags, query, g, answer).tagId == Some(tags[m].id)
      && forall j :: m < j < |tags| ==> !Matches(query, tags[j]))
  {
    var last := |tags| - 1;
    if !Matches(query, tags[last]) {
      var front := tags[..last];
      ScanKeepsLastMatch(front, query, g, answer, i);
      var m :| i <= m < |front| && Matches(query, front[m])
        && ScanResult(front, query, g, answer).tagId == Some(front[m].id)
        && forall j :: m < j < |front| ==> !Matches(query, front[j]);
      assert tags[m] == front[m];
      assert forall j :: m < j < |tags| ==> !Matches(query, tags[j]) by {
        forall j | m < j < |tags|
          ensures !Matches(query, tags[j])
        {
          if j < last {
            assert tags[j] == front[j];
          }
        }
      }
    }
  }

  /** Without a matching tag the scan changes nothing. */
  lemma {:induction false} ScanWithoutMatch(tags: seq<Tag>, query: Query, g: Globals, answer: nat -> string)
    requires forall i :: 0 <= i < |tags| ==> !Matches(query, tags[i])
    ensures ScanResult(tags, query, g, answer) == g
  {
    if tags != [] {
      ScanWithoutMatch(tags[..|tags| - 1], query, g, answer);
    }
  }

  /** In the id options `tag_id` already holds the entered id, and every
      match has that id: the scan leaves it in place whether or not a tag
      matched, so the tag-not-found stop can only happen in the name options. */
  lemma {:induction false} ScanKeepsRequestedId(tags: seq<Tag>, id: int, g: Globals, answer: nat -> string)
    requires g.tagId == Some(id)
    ensures ScanResult(tags, ById(id), g, answer).tagId == Some(id)
  {
    if tags != [] {
      ScanKeepsRequestedId(tags[..|tags| - 1], id, g, answer);
    }
  }

  /** The loop over all tags of options 1 to 4. */
  method ScanTags(tags: seq<Tag>, query: Query, g: Globals, answer: nat -> string) returns (r: Globals)
    ensures r == ScanResult(tags, query, g, answer)
  {
    r := g;
    var prompts := 0;
    for i := 0 to |tags|
      invariant ScanState(r, prompts) == Scan(tags[..i], query, g, answer)
    {
      assert tags[..i + 1][..i] == tags[..i];
      if Matches(query, tags[i]) {
        r := Globals(Some(tags[i].id), Some(answer(prompts)));
        prompts := prompts + 1;
      }
    }
    assert tags[..|tags|] == tags;
  }

  /** The confirmation gate: the run goes on only if the answer holds a 'y'. */
  predicate Proceeds(proceed: Option<string>)
  {
    proceed.Some? && 'y' in proceed.value
  }

  datatype Call = Put(assetId: string, tagId: int) | Delete(assetId: string, tagId: int)

  datatype Stop =
    | ProceedUnbound  // no prompt was ever answered: `proceed` is unbound
    | Declined        // the answer has no 'y'
    | TagNotFound     // `tag_id` is still None
    | TagFetchFailed  // a tag page could not be fetched

  datatype Outcome =
    | Completed(calls: seq<Call>, log: seq<string>, logText: string)
    | Stopped(why: Stop)

  function CallFor(untag: bool, assetId: string, tagId: int): Call
  {
    if untag then Delete(assetId, tagId) else Put(assetId, tagId)
  }

  /** The log line of one asset; it reports success whatever the reply was. */
  function LogEntry(untag: bool, assetId: string, tagId: int): string
  {
    if untag then "Tag " + IntToDecimal(tagId) + " successfully removed from asset " + assetId + "\n"
    else "Asset ID " + assetId + " successfully tagged with tag " + IntToDecimal(tagId) + "\n"
  }

  /** The log header: "Untagged" only in option 3. */
  function Header(choice: Choice): string
  {
    if choice.untag && choice.query.ById? then "Assets Untagged Summary:" else "Assets Tagged Summary:"
  }

  /** The log file: the header, a blank line, then every entry followed by "\n". */
  function LogText(choice: Choice, log: seq<string>): string
  {
    Header(choice) + "\n\n" + Concat(seq(|log|, k requires 0 <= k < |log| => log[k] + "\n"))
  }

  /** Option 3 alone writes the "Untagged" header; options 1, 2 and 4 write
      the "Tagged" one. */
  lemma HeaderByOption(choice: Choice, log: seq<string>)
    ensures LogText(choice, log)[..24] == "Assets Untagged Summary:" <==> choice.untag && choice.query.ById?
    ensures LogText(choice, log)[..22] == "Assets Tagged Summary:" <==> !(choice.untag && choice.query.ById?)
  {
    var h := Header(choice);
    assert LogText(choice, log)[..|h|] == h;
    if choice.untag && choice.query.ById? {
      assert LogText(choice, log)[..22] == h[..22];
      assert h[..22] != "Assets Tagged Summary:" by { assert h[8] != "Assets Tagged Summary:"[8]; }
    } else {
      assert LogText(choice, log)[..24] == (h + "\n\n")[..24];
      assert (h + "\n\n")[22] == '\n';
    }
  }

  /** What the asset loop does with the globals it finds: stop before any
      call, or one call and one log entry per line, in file order. */
  function BatchOutcome(choice: Choice, lines: seq<string>, g: Globals): Outcome
  {
    if g.proceed.None? then Stopped(ProceedUnbound)
    else if !Proceeds(g.proceed) then Stopped(Declined)
    else if g.tagId.None? then Stopped(TagNotFound)
    else
      var log := Entries(choice.untag, lines, g.tagId.value);
      Completed(Calls(choice.untag, lines, g.tagId.value), log, LogText(choice, log))
  }

  /** One call per line, in file order. */
  function Calls(untag: bool, lines: seq<string>, tagId: int): seq<Call>
  {
    seq(|lines|, k requires 0 <= k < |lines| => CallFor(untag, lines[k], tagId))
  }

  /** One log entry per line, in file order. */
  function Entries(untag: bool, lines: seq<string>, tagId: int): seq<string>
  {
    seq(|lines|, k requires 0 <= k < |lines| => LogEntry(untag, lines[k], tagId))
  }

  lemma BatchSnoc(untag: bool, lines: seq<string>, tagId: int, i: nat)
    requires i < |lines|
    ensures Calls(untag, lines[..i + 1], tagId) == Calls(untag, lines[..i], tagId) + [CallFor(untag, lines[i], tagId)]
    ensures Entries(untag, lines[..i + 1], tagId) == Entries(untag, lines[..i], tagId) + [LogEntry(untag, lines[i], tagId)]
  {
    var c, e := Calls(untag, lines[..i + 1], tagId), Entries(untag, lines[..i + 1], tagId);
    forall k | 0 <= k < i + 1
      ensures c[k] == (Calls(untag, lines[..i], tagId) + [CallFor(untag, lines[i], tagId)])[k]
      ensures e[k] == (Entries(untag, lines[..i], tagId) + [LogEntry(untag, lines[i], tagId)])[k]
    {
      assert lines[..i + 1][k] == lines[k];
    }
  }

  /** The gate decides before the first call: a run either stops with no
      call made, or goes through every line. In the name options an
      unmatched tag with `tag_id` still None never reaches the API. */
  lemma BatchGate(choice: Choice, lines: seq<string>, g: Globals)
    ensures BatchOutcome(choice, lines, g).Completed? <==> Proceeds(g.proceed) && g.tagId.Some?
    ensures BatchOutcome(choice, lines, g).Stopped? && g.proceed.Some? && 'y' in g.proceed.value ==>
      BatchOutcome(choice, lines, g).why == TagNotFound
  {
  }

  /** A completed run makes exactly one call per line, in file order: a
      DELETE in the untag options, a PUT otherwise, all with the found tag. */
  lemma BatchCalls(choice: Choice, lines: seq<string>, g: Globals)
    requires BatchOutcome(choice, lines, g).Completed?
    ensures var o := BatchOutcome(choice, lines, g);
      && |o.calls| == |lines|
      && forall k :: 0 <= k < |lines| ==>
           o.calls[k] == (if choice.untag then Delete(lines[k], g.tagId.value) else Put(lines[k], g.tagId.value))
  {
  }

  /** A completed run logs one entry per line and every entry reports a
      success, whatever the API replied. */
  lemma BatchLogs(choice: Choice, lines: seq<string>, g: Globals)
    requires BatchOutcome(choice, lines, g).Completed?
    ensures var o := BatchOutcome(choice, lines, g);
      && |o.log| == |lines|
      && forall k :: 0 <= k < |lines| ==> Contains(o.log[k], " successfully ")
  {
    forall k | 0 <= k < |lines|
      ensures Contains(LogEntry(choice.untag, lines[k], g.tagId.value), " successfully ")
    {
      EntryReportsSuccess(choice.untag, lines[k], g.tagId.value);
    }
  }

  lemma EntryReportsSuccess(untag: bool, assetId: string, tagId: int)
    ensures Contains(LogEntry(untag, assetId, tagId), " successfully ")
  {
    var ok := " successfully ";
    var id := IntToDecimal(tagId);
    var entry := LogEntry(untag, assetId, tagId);
    if untag {
      var rest := " successfully removed from asset " + assetId + "\n";
      assert entry == "Tag " + id + rest;
      assert rest[..|ok|] == ok;
      OccursAfter("Tag " + id, rest, ok);
    } else {
      var rest := " successfully tagged with tag " + id + "\n";
      assert entry == "Asset ID " + assetId + rest;
      assert rest[..|ok|] == ok;
      OccursAfter("Asset ID " + assetId, rest, ok);
    }
  }

  /** The asset loop of options 1 to 4: every line is an asset id; the gate
      and the tag check run before each call. */
  method RunBatch(choice: Choice, content: string, g: Globals) returns (outcome: Outcome)
    ensures outcome == BatchOutcome(choice, Split(content, "\n"), g)
  {
    var lines := Split(content, "\n");
    var calls: seq<Call> := [];
    var log: seq<string> := [];
    for i := 0 to |lines|
      invariant i > 0 ==> Proceeds(g.proceed) && g.tagId.Some?
      invariant calls == Calls(choice.untag, lines[..i], g.tagId.GetOr(0))
      invariant log == Entries(choice.untag, lines[..i], g.tagId.GetOr(0))
    {
      if g.proceed.None? {
        return Stopped(ProceedUnbound);
      } else if 'y' !in g.proceed.value {
        return Stopped(Declined);
      }
      if g.tagId.None? {
        return Stopped(TagNotFound);
      }
      var tagId := g.tagId.value;
      BatchSnoc(choice.untag, lines, tagId, i);
      if choice.untag {
        calls := calls + [Delete(lines[i], tagId)];
      } else {
        calls := calls + [Put(lines[i], tagId)];
      }
      log := log + [LogEntry(choice.untag, lines[i], tagId)];
    }
    assert lines[..|lines|] == lines;
    outcome := Completed(calls, log, LogText(choice, log));
  }

  /** One menu round of options 1 to 4: fetch the tags, scan them, then run
      the asset loop. Returns the globals the next round starts from. */
  method RunOption(choice: Choice, content: string, first: TagPage, fetch: nat -> Option<seq<Tag>>,
                   answer: nat -> string, g: Globals)
    returns (next: Globals, outcome: Outcome)
    ensures AllPages(first, fetch).Failure? ==> next == Entry(choice, g) && outcome == Stopped(TagFetchFailed)
    ensures AllPages(first, fetch).Success? ==>
      && next == ScanResult(AllPages(first, fetch).value, choice.query, Entry(choice, g), answer)
      && outcome == BatchOutcome(choice, Split(content, "\n"), next)
  {
    var start := Entry(choice, g);
    var tags, _ := CollectTags(first, fetch);
    if tags.Failure? {
      return start, Stopped(TagFetchFailed);
    }
    next := ScanTags(tags.value, choice.query, start, answer);
    outcome := RunBatch(choice, content, next);
  }
}
