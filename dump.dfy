/**
 * The RIB dump: a header line, then one line per local-RIB entry of every
 * AS, the ASes in ascending number order, each line holding the AS number,
 * the prefix and the AS path written as a tuple, `(1, 2, 3)` or `(3,)`.
 * Lines are kept without their line feeds.
 */
module Dump {
  import opened Wrappers
  import opened Text
  import opened Announcements
  import opened Graphs

  const Header: string := "asn,prefix,as_path"

  // ------------------------------------------------------------ AS paths

  /** The AS numbers of a path separated by `, `. */
  function Join(path: seq<Asn>): string
    decreases |path|
  {
    if path == [] then ""
    else if |path| == 1 then NatToString(path[0])
    else Join(path[..|path| - 1]) + ", " + NatToString(path[|path| - 1])
  }

  /** A path as a tuple: in parentheses, with a trailing comma when it has exactly one element. */
  function FormatPath(path: seq<Asn>): (s: string)
    ensures |s| >= 2 && s[0] == '(' && s[|s| - 1] == ')'
  {
    "(" + Join(path) + (if |path| == 1 then "," else "") + ")"
  }

  /** Writes a path as the dump's inner loop does, separator before every element but the first. */
  method FormatPathLoop(path: seq<Asn>) returns (s: string)
    ensures s == FormatPath(path)
  {
    s := "(";
    for i := 0 to |path|
      invariant s == "(" + Join(path[..i])
    {
      if i > 0 {
        s := s + ", ";
      }
      s := s + NatToString(path[i]);
      assert path[..i + 1][..i] == path[..i];
    }
    assert path[..|path|] == path;
    if |path| == 1 {
      s := s + ",";
    }
    s := s + ")";
  }

  /** Joining from the front: the first number, the separator, then the rest. */
  lemma {:induction false} JoinCons(x: Asn, rest: seq<Asn>)
    requires rest != []
    ensures Join([x] + rest) == NatToString(x) + ", " + Join(rest)
    decreases |rest|
  {
    var p := [x] + rest;
    if |rest| > 1 {
      var init := rest[..|rest| - 1];
      var a, b, c := NatToString(x), Join(init), NatToString(rest[|rest| - 1]);
      assert p[..|p| - 1] == [x] + init;
      JoinCons(x, init);
      assert Join(p) == (a + ", " + b) + ", " + c;
      assert Join(rest) == b + ", " + c;
    } else {
      assert p[..|p| - 1] == [x];
    }
  }

  /** Reads numbers separated by `, ` back, each a 32-bit AS number. */
  function ReadJoin(s: string): Option<seq<Asn>>
    decreases |s|
  {
    var j := DigitRun(s, 0);
    if j == 0 then None
    else
      var v := DecValue(s[..j]);
      if v >= 0x1_0000_0000 then None
      else if j == |s| then Some([v])
      else if j + 1 < |s| && s[j] == ',' && s[j + 1] == ' ' then
        match ReadJoin(s[j + 2..])
        case None => None
        case Some(rest) => Some([v as Asn] + rest)
      else None
  }

  /** Reads a tuple back: `()`, `(a,)` or `(a, b, ...)`. */
  function ReadPath(s: string): Option<seq<Asn>>
  {
    if |s| < 2 || s[0] != '(' || s[|s| - 1] != ')' then None
    else
      var inner := s[1..|s| - 1];
      if inner == [] then Some([])
      else if inner[|inner| - 1] == ',' then ReadJoin(inner[..|inner| - 1])
      else ReadJoin(inner)
  }

  /** A lone run of digits reads as its value. */
  lemma ReadJoinDigits(d: string)
    requires |d| >= 1 && forall k :: 0 <= k < |d| ==> IsDigit(d[k])
    requires DecValue(d) < 0x1_0000_0000
    ensures ReadJoin(d) == Some([DecValue(d) as Asn])
  {
    DigitsRun([], d, []);
    assert [] + d + [] == d;
  }

  /** A run of digits, the separator, then more: the value is put in front of what the rest reads as. */
  lemma ReadJoinSeparated(d: string, r: string)
    requires |d| >= 1 && forall k :: 0 <= k < |d| ==> IsDigit(d[k])
    requires DecValue(d) < 0x1_0000_0000
    ensures ReadJoin(d + (", " + r)) == match ReadJoin(r) case None => None case Some(rest) => Some([DecValue(d) as Asn] + rest)
  {
    var s := d + (", " + r);
    assert DigitRun(s, 0) == |d| && s[..|d|] == d && s[|d|] == ',' && s[|d| + 1] == ' ' && s[|d| + 2..] == r by {
      DigitsRun([], d, ", " + r);
      assert [] + d + (", " + r) == s;
    }
  }

  /** Joined numbers read back as the path they were written from. */
  lemma {:induction false} ReadJoinOfJoin(path: seq<Asn>)
    requires path != []
    ensures ReadJoin(Join(path)) == Some(path)
    decreases |path|
  {
    var d := NatToString(path[0]);
    DecValueOfNatToString(path[0]);
    if |path| == 1 {
      ReadJoinDigits(d);
      assert Join(path) == d;
      assert path == [path[0]];
    } else {
      var rest := path[1..];
      assert path == [path[0]] + rest;
      JoinCons(path[0], rest);
      assert Join(path) == d + (", " + Join(rest));
      ReadJoinSeparated(d, Join(rest));
      ReadJoinOfJoin(rest);
    }
  }

  /** A joined path starts with a digit and ends with one, so it never ends with a comma. */
  lemma JoinEndsWithDigit(path: seq<Asn>)
    requires path != []
    ensures var s := Join(path); |s| >= 1 && IsDigit(s[|s| - 1])
  {
    var d := NatToString(path[|path| - 1]);
    assert IsDigit(d[|d| - 1]);
  }

  /** Every path written as a tuple reads back as itself. */
  lemma ReadPathOfFormatPath(path: seq<Asn>)
    ensures ReadPath(FormatPath(path)) == Some(path)
  {
    var s := FormatPath(path);
    var j := Join(path);
    var tail := if |path| == 1 then "," else "";
    assert s[1..|s| - 1] == j + tail;
    if path != [] {
      JoinEndsWithDigit(path);
      ReadJoinOfJoin(path);
      if |path| == 1 {
        assert (j + tail)[..|j + tail| - 1] == j;
      } else {
        assert j + tail == j;
      }
    }
  }

  /** The formats the tests expect: a chain and a single origin. */
  lemma FormatPathExamples()
    ensures FormatPath([1, 2, 3]) == "(1, 2, 3)"
    ensures FormatPath([3]) == "(3,)"
    ensures FormatPath([]) == "()"
  {
    assert [1, 2, 3][..2] == [1, 2];
    assert [1, 2][..1] == [1];
  }

  // ------------------------------------------------------------ rows

  /** One local-RIB entry of one AS. */
  datatype Entry = Entry(asn: Asn, prefix: Prefix, path: seq<Asn>)

  /** A row: `asn,prefix,"(path)"`. */
  function Row(e: Entry): string
  {
    NatToString(e.asn) + "," + e.prefix + ",\"" + FormatPath(e.path) + "\""
  }

  /** The entry a row's three pieces stand for: a 32-bit AS number, the prefix and a tuple. */
  function RowOf(asnText: string, prefix: string, pathText: string): Option<Entry>
  {
    match (Stoul(asnText), ReadPath(pathText))
    case (Some(v), Some(path)) =>
      if v >= 0x1_0000_0000 then None else Some(Entry(v, prefix, path))
    case _ => None
  }

  /**
   * Reads a row back the way a consumer splits it: the AS number up to the
   * first comma, the prefix up to the second, and the rest a quoted tuple.
   */
  function ReadRow(line: string): Option<Entry>
  {
    var i := FindFrom(line, 0, ',');
    if i == |line| then None
    else
      var j := FindFrom(line, i + 1, ',');
      if j == |line| then None
      else
        var quoted := line[j + 1..];
        if |quoted| < 2 || quoted[0] != '"' || quoted[|quoted| - 1] != '"' then None
        else RowOf(line[..i], line[i + 1..j], quoted[1..|quoted| - 1])
  }

  /** The pieces of a row around its first two commas, and no comma before the second. */
  lemma RowPieces(d: string, prefix: string, q: string)
    requires ',' !in d && ',' !in prefix
    ensures var line := d + "," + prefix + "," + q;
      var i := |d|;
      var j := i + 1 + |prefix|;
      && j < |line| && line[i] == ',' && line[j] == ','
      && (forall n :: 0 <= n < j && n != i ==> line[n] != ',')
      && line[..i] == d && line[i + 1..j] == prefix && line[j + 1..] == q
  {
    var line := d + "," + prefix + "," + q;
    var i := |d|;
    var j := i + 1 + |prefix|;
    forall n | 0 <= n < j && n != i
      ensures line[n] != ','
    {
      if n < i {
        assert line[n] == d[n];
      } else {
        assert line[n] == prefix[n - i - 1];
      }
    }
    assert line[..i] == d;
    assert line[i + 1..j] == prefix;
    assert line[j + 1..] == q;
  }

  /** Where a row's first two commas are, and the three pieces around them. */
  lemma RowCommas(d: string, prefix: string, q: string)
    requires ',' !in d && ',' !in prefix
    ensures var line := d + "," + prefix + "," + q;
      && FindFrom(line, 0, ',') == |d|
      && FindFrom(line, |d| + 1, ',') == |d| + 1 + |prefix|
      && line[..|d|] == d && line[|d| + 1..|d| + 1 + |prefix|] == prefix && line[|d| + 1 + |prefix| + 1..] == q
  {
    RowPieces(d, prefix, q);
    var line := d + "," + prefix + "," + q;
    FindFromStops(line, 0, ',', |d|);
    FindFromStops(line, |d| + 1, ',', |d| + 1 + |prefix|);
  }

  /** A row split at its first two commas, the last piece quoted. */
  lemma ReadRowPieces(d: string, prefix: string, t: string)
    requires ',' !in d && ',' !in prefix
    ensures ReadRow(d + "," + prefix + "," + ("\"" + t + "\"")) == RowOf(d, prefix, t)
  {
    var q := "\"" + t + "\"";
    RowCommas(d, prefix, q);
    assert q[1..|q| - 1] == t;
  }

  /** Every row of a prefix without commas reads back as its entry. */
  lemma ReadRowOfRow(e: Entry)
    requires ',' !in e.prefix
    ensures ReadRow(Row(e)) == Some(e)
  {
    var d := NatToString(e.asn);
    assert ',' !in d by {
      assert forall k :: 0 <= k < |d| ==> d[k] != ',';
    }
    assert Row(e) == d + "," + e.prefix + "," + ("\"" + FormatPath(e.path) + "\"");
    ReadRowPieces(d, e.prefix, FormatPath(e.path));
    StoulOfNatToString(e.asn, []);
    assert d + [] == d;
    ReadPathOfFormatPath(e.path);
  }

  // ------------------------------------------------------------ AS order

  /** Strictly increasing, hence free of duplicates. */
  predicate Ascending(s: seq<Asn>)
  {
    forall i, j :: 0 <= i < j < |s| ==> s[i] < s[j]
  }

  /** The smallest AS number of a non-empty set. */
  ghost function Least(s: set<Asn>): (m: Asn)
    requires s != {}
    ensures m in s && forall x :: x in s ==> m <= x
    decreases s
  {
    var x :| x in s;
    assert forall z :: z in s ==> z == x || z in s - {x};
    if s - {x} == {} then x
    else
      var y := Least(s - {x});
      if x < y then x else y
  }

  /** The AS numbers of a set in ascending order. */
  ghost function SortedAsns(s: set<Asn>): (r: seq<Asn>)
    ensures Ascending(r)
    ensures forall x :: x in r <==> x in s
    decreases s
  {
    if s == {} then []
    else
      var m := Least(s);
      [m] + SortedAsns(s - {m})
  }

  /** Two ascending sequences with the same elements are the same sequence. */
  lemma {:induction false} AscendingUnique(a: seq<Asn>, b: seq<Asn>)
    requires Ascending(a) && Ascending(b)
    requires forall x :: x in a <==> x in b
    ensures a == b
    decreases |a|
  {
    if a != [] {
      assert a[0] in a;
    }
    if b != [] {
      assert b[0] in b;
    }
    if a != [] && b != [] {
      assert a[0] in b && b[0] in a;
      forall x
        ensures x in a[1..] <==> x in b[1..]
      {
        if x in a[1..] {
          assert x in b && x != b[0];
        }
        if x in b[1..] {
          assert x in a && x != a[0];
        }
      }
      AscendingUnique(a[1..], b[1..]);
      assert a == [a[0]] + a[1..] && b == [b[0]] + b[1..];
    }
  }

  /** Inserts a new number into an ascending sequence, keeping it ascending. */
  function Insert(s: seq<Asn>, x: Asn): (r: seq<Asn>)
    requires Ascending(s) && x !in s
    ensures Ascending(r)
    ensures forall y :: y in r <==> y in s || y == x
    decreases |s|
  {
    if s == [] then [x]
    else if x < s[0] then [x] + s
    else
      var t := Insert(s[1..], x);
      assert forall k :: 0 <= k < |t| ==> t[k] in t;
      [s[0]] + t
  }

  /** Collects the AS numbers of a set and sorts them, as the dump does before writing. */
  method SortedKeys(keys: set<Asn>) returns (asns: seq<Asn>)
    ensures asns == SortedAsns(keys)
  {
    asns := [];
    var pending := keys;
    while pending != {}
      invariant pending <= keys
      invariant Ascending(asns)
      invariant forall y :: y in asns <==> y in keys - pending
      decreases pending
    {
      var x :| x in pending;
      asns := Insert(asns, x);
      pending := pending - {x};
    }
    AscendingUnique(asns, SortedAsns(keys));
  }

  // ------------------------------------------------------------ the dump

  /** `order` lists the keys of `rib`, each once: the order in which the map yields them. */
  ghost predicate Lists(order: seq<Prefix>, rib: map<Prefix, Announcement>)
  {
    && (forall p :: p in order <==> p in rib)
    && (forall i, j :: 0 <= i < j < |order| ==> order[i] != order[j])
  }

  /** The entries of one AS's local RIB, in the order given. */
  function RibEntries(asn: Asn, rib: map<Prefix, Announcement>, order: seq<Prefix>): seq<Entry>
    requires forall p :: p in order ==> p in rib
    decreases |order|
  {
    if order == [] then []
    else
      var p := order[|order| - 1];
      RibEntries(asn, rib, order[..|order| - 1]) + [Entry(asn, p, rib[p].asPath)]
  }

  /** `orders[k]` lists the local RIB of `asns[k]`, each AS being in the graph. */
  ghost predicate Listing(g: Graph, asns: seq<Asn>, orders: seq<seq<Prefix>>)
  {
    && |asns| == |orders|
    && (forall k :: 0 <= k < |asns| ==> asns[k] in g && Lists(orders[k], g[asns[k]].policy.localRib))
  }

  /** The entries of the given ASes in turn. */
  function Entries(g: Graph, asns: seq<Asn>, orders: seq<seq<Prefix>>): seq<Entry>
    requires Listing(g, asns, orders)
    decreases |asns|
  {
    if asns == [] then []
    else
      var n := |asns| - 1;
      Entries(g, asns[..n], orders[..n]) + RibEntries(asns[n], g[asns[n]].policy.localRib, orders[n])
  }

  /** One row per entry. */
  function Rows(entries: seq<Entry>): (r: seq<string>)
    ensures |r| == |entries|
    ensures forall i :: 0 <= i < |entries| ==> r[i] == Row(entries[i])
    decreases |entries|
  {
    if entries == [] then [] else Rows(entries[..|entries| - 1]) + [Row(entries[|entries| - 1])]
  }

  /**
   * The dump of a graph: the header, then the rows of every AS in ascending
   * order, each AS's rows in the order its local RIB yields them.
   */
  ghost function DumpLines(g: Graph, orders: seq<seq<Prefix>>): (r: seq<string>)
    requires Listing(g, SortedAsns(g.Keys), orders)
    ensures |r| >= 1 && r[0] == Header
    ensures r[1..] == Rows(Entries(g, SortedAsns(g.Keys), orders))
  {
    [Header] + Rows(Entries(g, SortedAsns(g.Keys), orders))
  }

  /** Listing one more AS appends its entries. */
  lemma EntriesSnoc(g: Graph, asns: seq<Asn>, orders: seq<seq<Prefix>>, a: Asn, o: seq<Prefix>)
    requires Listing(g, asns, orders)
    requires a in g && Lists(o, g[a].policy.localRib)
    ensures Listing(g, asns + [a], orders + [o])
    ensures Entries(g, asns + [a], orders + [o]) == Entries(g, asns, orders) + RibEntries(a, g[a].policy.localRib, o)
  {
    assert (asns + [a])[..|asns|] == asns;
    assert (orders + [o])[..|orders|] == orders;
  }

  /** Dumping one more AS `a` after the ASes `done` appends the rows of its local RIB. */
  lemma DumpStep(g: Graph, done: seq<Asn>, orders: seq<seq<Prefix>>, a: Asn, o: seq<Prefix>, rows: seq<string>)
    requires Listing(g, done, orders)
    requires a in g && Lists(o, g[a].policy.localRib)
    requires rows == Rows(RibEntries(a, g[a].policy.localRib, o))
    ensures Listing(g, done + [a], orders + [o])
    ensures [Header] + Rows(Entries(g, done, orders)) + rows
         == [Header] + Rows(Entries(g, done + [a], orders + [o]))
  {
    EntriesSnoc(g, done, orders, a, o);
    RowsAppend(Entries(g, done, orders), RibEntries(a, g[a].policy.localRib, o));
    assert [Header] + Rows(Entries(g, done, orders)) + rows == [Header] + (Rows(Entries(g, done, orders)) + rows);
  }

  /**
   * The prefix of length `i + 1` is the prefix of length `i` and one more
   * element; kept apart so the dump loop's proof stays small.
   */
  lemma PrefixSnoc<T>(s: seq<T>, i: nat)
    requires i < |s|
    ensures s[..i + 1] == s[..i] + [s[i]]
  {
  }

  /** Rows of concatenated entries are the concatenated rows. */
  lemma {:induction false} RowsAppend(a: seq<Entry>, b: seq<Entry>)
    ensures Rows(a + b) == Rows(a) + Rows(b)
    decreases |b|
  {
    if b != [] {
      var n := |b| - 1;
      assert (a + b)[..|a + b| - 1] == a + b[..n];
      RowsAppend(a, b[..n]);
    } else {
      assert a + b == a;
    }
  }

  /** The entries of one AS are exactly its RIB: one per prefix listed, with its path. */
  lemma {:induction false} RibEntriesAre(asn: Asn, rib: map<Prefix, Announcement>, order: seq<Prefix>, e: Entry)
    requires forall p :: p in order ==> p in rib
    ensures e in RibEntries(asn, rib, order) <==> e.asn == asn && e.prefix in order && e.path == rib[e.prefix].asPath
    decreases |order|
  {
    if order != [] {
      var n := |order| - 1;
      RibEntriesAre(asn, rib, order[..n], e);
      assert order == order[..n] + [order[n]];
    }
  }

  /** Every entry of one AS carries that AS's number. */
  lemma {:induction false} RibEntriesOwner(asn: Asn, rib: map<Prefix, Announcement>, order: seq<Prefix>)
    requires forall p :: p in order ==> p in rib
    ensures forall k :: 0 <= k < |RibEntries(asn, rib, order)| ==> RibEntries(asn, rib, order)[k].asn == asn
    decreases |order|
  {
    if order != [] {
      RibEntriesOwner(asn, rib, order[..|order| - 1]);
    }
  }

  /**
   * The dump lists exactly the local-RIB entries of the graph: an entry is
   * dumped when and only when its AS is in the graph, its prefix is in that
   * AS's local RIB, and its path is the path stored there.
   */
  lemma {:induction false} EntriesAre(g: Graph, asns: seq<Asn>, orders: seq<seq<Prefix>>, e: Entry)
    requires Listing(g, asns, orders)
    ensures e in Entries(g, asns, orders) <==>
      e.asn in asns && e.asn in g && e.prefix in g[e.asn].policy.localRib && e.path == g[e.asn].policy.localRib[e.prefix].asPath
    decreases |asns|
  {
    if asns != [] {
      var n := |asns| - 1;
      assert Listing(g, asns[..n], orders[..n]);
      EntriesAre(g, asns[..n], orders[..n], e);
      RibEntriesAre(asns[n], g[asns[n]].policy.localRib, orders[n], e);
      assert asns == asns[..n] + [asns[n]];
    }
  }

  /** The entries' AS numbers never decrease. */
  predicate OwnersAscend(es: seq<Entry>)
  {
    forall i, j :: 0 <= i < j < |es| ==> es[i].asn <= es[j].asn
  }

  /** Entries all below a bound, followed by entries all at it, still have ascending owners. */
  lemma OwnersAscendAppend(front: seq<Entry>, last: seq<Entry>, bound: Asn)
    requires OwnersAscend(front)
    requires forall k :: 0 <= k < |front| ==> front[k].asn < bound
    requires forall k :: 0 <= k < |last| ==> last[k].asn == bound
    ensures OwnersAscend(front + last)
  {
    var es := front + last;
    forall i, j | 0 <= i < j < |es|
      ensures es[i].asn <= es[j].asn
    {
      if j < |front| {
        assert es[i] == front[i] && es[j] == front[j];
      } else if i < |front| {
        assert es[i] == front[i] && es[j] == last[j - |front|];
      } else {
        assert es[i] == last[i - |front|] && es[j] == last[j - |front|];
      }
    }
  }

  /** Every entry comes from one of the ASes listed. */
  lemma {:induction false} EntriesOwners(g: Graph, asns: seq<Asn>, orders: seq<seq<Prefix>>)
    requires Listing(g, asns, orders)
    ensures forall k :: 0 <= k < |Entries(g, asns, orders)| ==> Entries(g, asns, orders)[k].asn in asns
    decreases |asns|
  {
    if asns != [] {
      var n := |asns| - 1;
      assert Listing(g, asns[..n], orders[..n]);
      EntriesOwners(g, asns[..n], orders[..n]);
      var front := Entries(g, asns[..n], orders[..n]);
      var last := RibEntries(asns[n], g[asns[n]].policy.localRib, orders[n]);
      RibEntriesOwner(asns[n], g[asns[n]].policy.localRib, orders[n]);
      var es := front + last;
      forall k | 0 <= k < |es|
        ensures es[k].asn in asns
      {
        if k < |front| {
          assert es[k] == front[k];
          assert front[k].asn in asns[..n];
        } else {
          assert es[k] == last[k - |front|];
        }
      }
    }
  }

  /** When the ASes are listed in ascending order, so are the entries' AS numbers. */
  lemma {:induction false} EntriesAscending(g: Graph, asns: seq<Asn>, orders: seq<seq<Prefix>>)
    requires Listing(g, asns, orders)
    requires Ascending(asns)
    ensures OwnersAscend(Entries(g, asns, orders))
    decreases |asns|
  {
    if asns != [] {
      var n := |asns| - 1;
      assert Listing(g, asns[..n], orders[..n]);
      EntriesAscending(g, asns[..n], orders[..n]);
      EntriesOwners(g, asns[..n], orders[..n]);
      var front := Entries(g, asns[..n], orders[..n]);
      RibEntriesOwner(asns[n], g[asns[n]].policy.localRib, orders[n]);
      forall k | 0 <= k < |front|
        ensures front[k].asn < asns[n]
      {
        var m :| 0 <= m < n && asns[..n][m] == front[k].asn;
      }
      OwnersAscendAppend(front, RibEntries(asns[n], g[asns[n]].policy.localRib, orders[n]), asns[n]);
    }
  }

  /**
   * The dump's rows are in ascending AS order and are exactly the graph's
   * local-RIB entries.
   */
  lemma DumpIsSortedRib(g: Graph, orders: seq<seq<Prefix>>)
    requires Listing(g, SortedAsns(g.Keys), orders)
    ensures var es := Entries(g, SortedAsns(g.Keys), orders);
      && OwnersAscend(es)
      && (forall e :: e in es <==> e.asn in g && e.prefix in g[e.asn].policy.localRib && e.path == g[e.asn].policy.localRib[e.prefix].asPath)
  {
    var asns := SortedAsns(g.Keys);
    EntriesAscending(g, asns, orders);
    forall e
      ensures e in Entries(g, asns, orders) <==> e.asn in g && e.prefix in g[e.asn].policy.localRib && e.path == g[e.asn].policy.localRib[e.prefix].asPath
    {
      EntriesAre(g, asns, orders, e);
    }
  }

  /** One turn of the RIB loop keeps its invariants. */
  lemma RibRowsStep(asn: Asn, rib: map<Prefix, Announcement>, order: seq<Prefix>, pending: set<Prefix>,
                    prefix: Prefix, rows: seq<string>, line: string)
    requires pending <= rib.Keys && prefix in pending
    requires forall p :: p in order <==> p in rib.Keys - pending
    requires forall i, j :: 0 <= i < j < |order| ==> order[i] != order[j]
    requires rows == Rows(RibEntries(asn, rib, order))
    requires |rows| + |pending| == |rib.Keys|
    requires line == Row(Entry(asn, prefix, rib[prefix].asPath))
    ensures forall p :: p in order + [prefix] <==> p in rib.Keys - (pending - {prefix})
    ensures forall i, j :: 0 <= i < j < |order + [prefix]| ==> (order + [prefix])[i] != (order + [prefix])[j]
    ensures rows + [line] == Rows(RibEntries(asn, rib, order + [prefix]))
    ensures |rows + [line]| + |pending - {prefix}| == |rib.Keys|
  {
    var next := order + [prefix];
    assert prefix !in order;
    assert next[..|next| - 1] == order;
  }

  /** Writes the rows of one AS's local RIB, visiting its prefixes in whatever order the map yields them. */
  method RibRows(asn: Asn, rib: map<Prefix, Announcement>) returns (rows: seq<string>, ghost order: seq<Prefix>)
    ensures Lists(order, rib)
    ensures rows == Rows(RibEntries(asn, rib, order))
    ensures |rows| == |rib|
  {
    rows := [];
    order := [];
    var pending := rib.Keys;
    while pending != {}
      invariant pending <= rib.Keys
      invariant forall p :: p in order <==> p in rib.Keys - pending
      invariant forall i, j :: 0 <= i < j < |order| ==> order[i] != order[j]
      invariant rows == Rows(RibEntries(asn, rib, order))
      invariant |rows| + |pending| == |rib.Keys|
      decreases pending
    {
      var prefix :| prefix in pending;
      var path := FormatPathLoop(rib[prefix].asPath);
      var line := NatToString(asn) + "," + prefix + ",\"" + path + "\"";
      RibRowsStep(asn, rib, order, pending, prefix, rows, line);
      rows := rows + [line];
      order := order + [prefix];
      pending := pending - {prefix};
    }
  }
}
