/** The batch lookup script: every line of the input file is an address or
    a host name, and the rows it selects from the preprocessed inventory are
    appended to one output table, line after line. */
module AssetIdFinder {
  import opened Wrappers
  import opened Seqs
  import opened Text
  import opened Inventory

  predicate AddressIs(ip: string, r: Row)
  {
    r.ip == ip
  }

  function ExactTest(ip: string): Row -> bool
  {
    r => AddressIs(ip, r)
  }

  /** The rows of `table` whose address contains `ip`. */
  function AddressMatches(table: seq<Row>, ip: string): seq<Row>
  {
    Filter(table, AddressTest(ip))
  }

  /** One exactly matching entry after another adds another copy of
      `block`, the rows whose address contains the line. */
  function IpLineRows(entries: seq<Row>, ip: string, block: seq<Row>): seq<Row>
  {
    if entries == [] then []
    else
      IpLineRows(entries[..|entries| - 1], ip, block)
      + (if entries[|entries| - 1].ip == ip then block else [])
  }

  /** What one address line adds to the output of a search over `db`. */
  function IpLineResult(db: seq<Row>, ip: string): seq<Row>
  {
    IpLineRows(db, ip, AddressMatches(db, ip))
  }

  /** One copy of `block` per exactly matching entry. */
  lemma {:induction false} IpLineCopies(entries: seq<Row>, ip: string, block: seq<Row>)
    ensures |IpLineRows(entries, ip, block)| == CountWhere(entries, ExactTest(ip)) * |block|
  {
    if entries != [] {
      var front := entries[..|entries| - 1];
      var last := entries[|entries| - 1];
      IpLineCopies(front, ip, block);
      assert entries == front + [last];
      CountWhereSnoc(front, last, ExactTest(ip));
      var c := CountWhere(front, ExactTest(ip));
      if last.ip == ip {
        assert ExactTest(ip)(last);
        assert (c + 1) * |block| == c * |block| + |block|;
      } else {
        assert !ExactTest(ip)(last);
      }
    }
  }

  lemma {:induction false} IpLineMembers(entries: seq<Row>, ip: string, block: seq<Row>)
    ensures forall r :: r in IpLineRows(entries, ip, block) ==> r in block
    ensures (exists k :: 0 <= k < |entries| && entries[k].ip == ip) ==>
      forall r :: r in block ==> r in IpLineRows(entries, ip, block)
  {
    if entries != [] {
      var front := entries[..|entries| - 1];
      IpLineMembers(front, ip, block);
      if exists k :: 0 <= k < |entries| && entries[k].ip == ip {
        var k :| 0 <= k < |entries| && entries[k].ip == ip;
        if k < |front| {
          assert front[k].ip == ip;
        }
      }
    }
  }

  /** One copy of the containing rows per exactly matching row: no exact
      match, no rows, even when some address contains the line. */
  lemma IpLineSize(db: seq<Row>, ip: string)
    ensures |IpLineResult(db, ip)| == CountWhere(db, ExactTest(ip)) * |AddressMatches(db, ip)|
  {
    IpLineCopies(db, ip, AddressMatches(db, ip));
  }

  /** Every row a line adds is a row of the inventory whose address
      contains the line; once some row matches exactly, all such rows are
      added. */
  lemma IpLineContents(db: seq<Row>, ip: string)
    ensures forall r :: r in IpLineResult(db, ip) ==> r in db && Contains(r.ip, ip)
    ensures (exists k :: 0 <= k < |db| && db[k].ip == ip) ==>
      forall r :: r in db && Contains(r.ip, ip) ==> r in IpLineResult(db, ip)
  {
    var m := AddressMatches(db, ip);
    IpLineMembers(db, ip, m);
    assert forall k :: 0 <= k < |m| ==> AddressTest(ip)(m[k]);
    forall r | r in db && Contains(r.ip, ip)
      ensures r in m
    {
      var k :| 0 <= k < |db| && db[k] == r;
      assert AddressTest(ip)(db[k]);
    }
  }

  /** The address search's output for the lines of a file. */
  function IpSearchResult(db: seq<Row>, lines: seq<string>): seq<Row>
  {
    Concat(seq(|lines|, i requires 0 <= i < |lines| => IpLineResult(db, lines[i])))
  }

  /** Option 1: for each line, scan every row and, on an exact address
      match, append the rows whose address contains the line. */
  method SearchByIp(db: seq<Row>, content: string) returns (output: seq<Row>)
    ensures output == IpSearchResult(db, Split(content, "\n"))
  {
    var lines := Split(content, "\n");
    ghost var perLine := seq(|lines|, i requires 0 <= i < |lines| => IpLineResult(db, lines[i]));
    output := [];
    for i := 0 to |lines|
      invariant output == Concat(perLine[..i])
    {
      var ip := lines[i];
      var data: seq<Row> := [];
      for k := 0 to |db|
        invariant data == IpLineRows(db[..k], ip, AddressMatches(db, ip))
      {
        assert db[..k + 1][..k] == db[..k];
        if db[k].ip == ip {
          data := data + Filter(db, AddressTest(ip));
        }
      }
      assert db[..|db|] == db;
      assert perLine[..i + 1] == perLine[..i] + [data];
      ConcatSnoc(perLine[..i], data);
      output := output + data;
    }
    assert perLine[..|lines|] == perLine;
  }

  /** The host name search's output for the lines of a file. */
  function HostSearchResult(db: seq<Row>, lines: seq<string>): seq<Row>
  {
    Concat(seq(|lines|, i requires 0 <= i < |lines| => HostMatches(db, lines[i])))
  }

  /** Option 2: for each line, append the rows whose host name contains the
      line's key. */
  method SearchByHostname(db: seq<Row>, content: string) returns (output: seq<Row>)
    ensures output == HostSearchResult(db, Split(content, "\n"))
  {
    var lines := Split(content, "\n");
    output := [];
    for i := 0 to |lines|
      invariant output == HostSearchResult(db, lines[..i])
    {
      var hostname := DropDomain(Lower(lines[i]));
      var data := Filter(db, HostTest(hostname));
      assert data == HostMatches(db, lines[i]);
      HostSearchSnoc(db, lines[..i], lines[i]);
      assert lines[..i + 1] == lines[..i] + [lines[i]];
      output := output + data;
    }
    assert lines[..|lines|] == lines;
  }

  lemma HostSearchSnoc(db: seq<Row>, lines: seq<string>, line: string)
    ensures HostSearchResult(db, lines + [line]) == HostSearchResult(db, lines) + HostMatches(db, line)
  {
    var perLine := seq(|lines|, i requires 0 <= i < |lines| => HostMatches(db, lines[i]));
    var all := lines + [line];
    assert seq(|all|, i requires 0 <= i < |all| => HostMatches(db, all[i])) == perLine + [HostMatches(db, line)];
    ConcatSnoc(perLine, HostMatches(db, line));
  }

  /** Results follow the input lines: a row is in the output iff some line
      selects it. */
  lemma HostSearchRows(db: seq<Row>, lines: seq<string>, r: Row)
    ensures r in HostSearchResult(db, lines) <==> exists i :: 0 <= i < |lines| && r in HostMatches(db, lines[i])
  {
    var perLine := seq(|lines|, i requires 0 <= i < |lines| => HostMatches(db, lines[i]));
    ConcatMembership(perLine, r);
    if exists i :: 0 <= i < |lines| && r in HostMatches(db, lines[i]) {
      var i :| 0 <= i < |lines| && r in HostMatches(db, lines[i]);
      assert r in perLine[i];
    }
  }

  /** A file that ends with a newline has an empty last line, and that line
      selects every row with a host name. */
  lemma TrailingNewlineSelectsAllNamed(db: seq<Row>, content: string, r: Row)
    requires r in db && r.hostName.Some?
    ensures r in HostSearchResult(db, Split(content + "\n", "\n"))
  {
    var lines := Split(content + "\n", "\n");
    LastPieceAfterFinalSeparator(content);
    EmptyQueryMatchesAllNamed(db);
    var k :| 0 <= k < |db| && db[k] == r;
    assert r in HostMatches(db, lines[|lines| - 1]);
    HostSearchRows(db, lines, r);
  }

  /** The first newline of `s + "\n"` is at or before the appended one. */
  lemma FirstNewline(s: string) returns (i: nat)
    ensures i <= |s| && IndexOf(s + "\n", "\n") == Some(i)
    ensures i < |s| ==> (s + "\n")[i + 1..] == s[i + 1..] + "\n"
  {
    assert OccursAt(s + "\n", "\n", |s|);
    i := IndexOf(s + "\n", "\n").value;
  }

  /** Splitting text that ends with the separator leaves an empty last piece. */
  lemma {:induction false} LastPieceAfterFinalSeparator(s: string)
    ensures var parts := Split(s + "\n", "\n"); parts[|parts| - 1] == ""
    decreases |s|
  {
    var t := s + "\n";
    var i := FirstNewline(s);
    SplitAtFirst(t, "\n", i);
    if i == |s| {
      assert t[i + 1..] == "";
      SplitEmpty("\n");
    } else {
      LastPieceAfterFinalSeparator(s[i + 1..]);
    }
  }
}
