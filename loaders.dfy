/**
 * The three input files, read line by line: the relationship file that
 * builds the graph, the announcement file that seeds it and the file of
 * ASes that deploy ROV.  A file is a sequence of lines (without their line
 * feeds); each function here is what one line, or a whole file, does to a
 * graph value.  The `ASGraph` class reads the same lines in place.
 */
module Loaders {
  import opened Wrappers
  import opened Text
  import opened Announcements
  import opened Policies
  import opened Graphs

  // ------------------------------------------------------------ relationships

  /** One line of the relationship file: nothing to do, a link, or text the number parsers reject. */
  datatype LinkLine = Skip | Unreadable | Link(first: Asn, second: Asn, rel: int)

  /**
   * The first three `|`-separated fields of a line, as three `std::getline`
   * calls leave them in one shared string: a call that finds the line used
   * up leaves the previous field in place.
   */
  function LinkSegments(line: string): (string, string, string)
  {
    var g1 := Getline(line, Cursor(0, false), '|', "");
    var g2 := Getline(line, g1.next, '|', g1.field);
    var g3 := Getline(line, g2.next, '|', g2.field);
    (g1.field, g2.field, g3.field)
  }

  /**
   * The fields, trimmed and converted with `stoul`, `stoul` and `stoi`, the
   * AS numbers cut to 32 bits; a conversion that throws makes the line
   * unreadable.
   */
  function LinkOf(f1: string, f2: string, f3: string): (r: LinkLine)
    ensures r != Skip
    ensures r.Link? ==> -0x8000_0000 <= r.rel <= 0x7FFF_FFFF
  {
    match (Stoul(Trim(f1)), Stoul(Trim(f2)), Stoi(Trim(f3)))
    case (Some(a), Some(b), Some(rel)) => Link(ToUint32(a), ToUint32(b), rel)
    case _ => Unreadable
  }

  /** An empty line or one starting with `#` is skipped; any other line is read as a link. */
  function ParseLinkLine(line: string): (r: LinkLine)
    ensures r == Skip <==> line == [] || line[0] == '#'
  {
    if line == [] || line[0] == '#' then Skip
    else
      var (f1, f2, f3) := LinkSegments(line);
      LinkOf(f1, f2, f3)
  }

  /** Every line of a relationship file, read. */
  function ParseLinks(lines: seq<string>): (r: seq<LinkLine>)
    ensures |r| == |lines|
    ensures forall i :: 0 <= i < |lines| ==> r[i] == ParseLinkLine(lines[i])
    decreases |lines|
  {
    if lines == [] then [] else [ParseLinkLine(lines[0])] + ParseLinks(lines[1..])
  }

  /** Relationship -1 makes the first AS a provider of the second, 0 makes them peers, anything else is ignored. */
  function ApplyLink(g: Graph, l: LinkLine): Graph
  {
    match l
    case Link(a, b, rel) =>
      if rel == -1 then AddProvider(g, a, b)
      else if rel == 0 then AddPeer(g, a, b)
      else g
    case _ => g
  }

  /**
   * The graph after the links in order, and whether every line was read: an
   * unreadable line stops the reading with the links before it in place.
   */
  function BuildLinks(g: Graph, links: seq<LinkLine>): (r: (Graph, bool))
    decreases |links|
  {
    if links == [] then (g, true)
    else if links[0].Unreadable? then (g, false)
    else BuildLinks(ApplyLink(g, links[0]), links[1..])
  }

  /** A line with `|` at `i` and `j`, and none elsewhere before `k`, splits into the text between. */
  lemma LinkSegmentsAt(line: string, i: nat, j: nat, k: nat)
    requires i < j < k <= |line|
    requires line[i] == '|' && line[j] == '|' && (k < |line| ==> line[k] == '|')
    requires forall n :: 0 <= n < k && n != i && n != j ==> line[n] != '|'
    ensures LinkSegments(line) == (line[..i], line[i + 1..j], line[j + 1..k])
  {
    FindFromStops(line, 0, '|', i);
    var g1 := Getline(line, Cursor(0, false), '|', "");
    assert g1 == Got(true, line[..i], Cursor(i + 1, false));
    FindFromStops(line, i + 1, '|', j);
    var g2 := Getline(line, g1.next, '|', g1.field);
    assert g2 == Got(true, line[i + 1..j], Cursor(j + 1, false));
    var g3 := Getline(line, g2.next, '|', g2.field);
    if j + 1 == |line| {
      GetlineEnd(line, '|', g2.field);
      assert g3.field == [];
    } else {
      FindFromStops(line, j + 1, '|', k);
      assert g3.field == line[j + 1..k];
    }
  }

  /** Where the delimiters of `f1|f2|f3` followed by `tail` sit, and what lies between them. */
  lemma BarsAt(f1: string, f2: string, f3: string, tail: string)
    requires '|' !in f1 && '|' !in f2 && '|' !in f3
    requires tail == [] || tail[0] == '|'
    ensures var line := f1 + "|" + f2 + "|" + f3 + tail;
      var i := |f1|;
      var j := i + 1 + |f2|;
      var k := j + 1 + |f3|;
      && k <= |line| && line[i] == '|' && line[j] == '|' && (k < |line| ==> line[k] == '|')
      && (forall n :: 0 <= n < k && n != i && n != j ==> line[n] != '|')
      && line[..i] == f1 && line[i + 1..j] == f2 && line[j + 1..k] == f3
  {
    var line := f1 + "|" + f2 + "|" + f3 + tail;
    var i := |f1|;
    var j := i + 1 + |f2|;
    var k := j + 1 + |f3|;
    forall n | 0 <= n < k && n != i && n != j
      ensures line[n] != '|'
    {
      if n < i {
        assert line[n] == f1[n];
      } else if n < j {
        assert line[n] == f2[n - i - 1];
      } else {
        assert line[n] == f3[n - j - 1];
      }
    }
    if k < |line| {
      assert line[k] == tail[0];
    }
    assert line[..i] == f1;
    assert line[i + 1..j] == f2;
    assert line[j + 1..k] == f3;
  }

  /** A line splits at its first two `|`s and at the next `|` or its end. */
  lemma LinkSegmentsOf(f1: string, f2: string, f3: string, tail: string)
    requires '|' !in f1 && '|' !in f2 && '|' !in f3
    requires tail == [] || tail[0] == '|'
    ensures LinkSegments(f1 + "|" + f2 + "|" + f3 + tail) == (f1, f2, f3)
  {
    BarsAt(f1, f2, f3, tail);
    LinkSegmentsAt(f1 + "|" + f2 + "|" + f3 + tail, |f1|, |f1| + 1 + |f2|, |f1| + 1 + |f2| + 1 + |f3|);
  }

  /**
   * The fields of a line are split on `|` and trimmed: a line not starting
   * with `#` reads as its first three fields, whatever further fields follow.
   */
  lemma LinkFields(f1: string, f2: string, f3: string, tail: string)
    requires '|' !in f1 && '|' !in f2 && '|' !in f3
    requires tail == [] || tail[0] == '|'
    requires f1 == [] || f1[0] != '#'
    ensures ParseLinkLine(f1 + "|" + f2 + "|" + f3 + tail) == LinkOf(f1, f2, f3)
  {
    var line := f1 + "|" + f2 + "|" + f3 + tail;
    assert line[0] == (if f1 == [] then '|' else f1[0]);
    LinkSegmentsOf(f1, f2, f3, tail);
  }

  /** Rendered numbers with white space around them convert back to the link. */
  lemma LinkOfRendered(a: Asn, b: Asn, rel: int, w: string)
    requires -0x8000_0000 <= rel <= 0x7FFF_FFFF
    requires AllSpace(w)
    ensures LinkOf(w + NatToString(a) + w, w + NatToString(b) + w, w + IntToString(rel) + w) == Link(a, b, rel)
  {
    TrimPadded(w, NatToString(a), w);
    TrimPadded(w, NatToString(b), w);
    IntTextEnds(rel);
    TrimPadded(w, IntToString(rel), w);
    StoulOfNatToString(a, []);
    StoulOfNatToString(b, []);
    StoiOfIntToString(rel, []);
    assert NatToString(a) + [] == NatToString(a);
    assert NatToString(b) + [] == NatToString(b);
    assert IntToString(rel) + [] == IntToString(rel);
  }

  /**
   * Reading a link back: with white space around each field and any further
   * `|`-separated fields after the third, the line `first|second|rel` yields
   * the link it was written from.
   */
  lemma LinkTextRoundTrip(a: Asn, b: Asn, rel: int, w: string, tail: string)
    requires -0x8000_0000 <= rel <= 0x7FFF_FFFF
    requires AllSpace(w) && (tail == [] || tail[0] == '|')
    ensures ParseLinkLine((w + NatToString(a) + w) + "|" + (w + NatToString(b) + w) + "|" + (w + IntToString(rel) + w) + tail) == Link(a, b, rel)
  {
    var f1 := w + NatToString(a) + w;
    var f2 := w + NatToString(b) + w;
    var f3 := w + IntToString(rel) + w;
    SpacesHaveNo(w, '|');
    SpacesHaveNo(w, '#');
    DigitsHaveNo(NatToString(a), '|');
    DigitsHaveNo(NatToString(b), '|');
    IntTextHasNo(rel, '|');
    assert f1[0] == (if w == [] then NatToString(a)[0] else w[0]);
    LinkFields(f1, f2, f3, tail);
    LinkOfRendered(a, b, rel, w);
  }

  /** White space holds no delimiter and no `#`. */
  lemma SpacesHaveNo(w: string, c: char)
    requires AllSpace(w) && !IsSpace(c)
    ensures c !in w
  {
    assert forall k :: 0 <= k < |w| ==> w[k] != c;
  }

  /** Digits hold no delimiter. */
  lemma DigitsHaveNo(d: string, c: char)
    requires forall k :: 0 <= k < |d| ==> IsDigit(d[k])
    requires !IsDigit(c)
    ensures c !in d
  {
    assert forall k :: 0 <= k < |d| ==> d[k] != c;
  }

  /** A rendered integer is a minus sign and digits. */
  lemma IntTextHasNo(v: int, c: char)
    requires !IsDigit(c) && c != '-'
    ensures c !in IntToString(v)
  {
    if v < 0 {
      DigitsHaveNo(NatToString(-v), c);
    } else {
      DigitsHaveNo(NatToString(v), c);
    }
  }

  /** A rendered integer neither starts nor ends with white space. */
  lemma IntTextEnds(v: int)
    ensures var s := IntToString(v); !IsSpace(s[0]) && !IsSpace(s[|s| - 1])
  {
    var d := if v < 0 then NatToString(-v) else NatToString(v);
    assert IsDigit(d[|d| - 1]);
  }

  // ------------------------------------------------------------ announcements

  /**
   * The three `,`-separated fields of a row, each read into its own string,
   * or nothing when the row has fewer than three.
   */
  function SeedSegments(line: string): Option<(string, string, string)>
  {
    var g1 := Getline(line, Cursor(0, false), ',', "");
    var g2 := Getline(line, g1.next, ',', "");
    var g3 := Getline(line, g2.next, ',', "");
    if g1.ok && g2.ok && g3.ok then Some((g1.field, g2.field, g3.field)) else None
  }

  /**
   * The fields trimmed: an AS number `stoul` rejects skips the row; otherwise
   * the row seeds an origin announcement of the prefix at the AS (cut to 32
   * bits), flagged ROV-invalid exactly when the third field is `True`.
   */
  function SeedOf(f1: string, f2: string, f3: string): (r: Option<(Asn, Announcement)>)
    ensures r.Some? <==> Stoul(Trim(f1)).Some?
    ensures r.Some? ==> r.value.1 == OriginAnnouncement(Trim(f2), r.value.0).(rovInvalid := Trim(f3) == "True")
  {
    match Stoul(Trim(f1))
    case None => None
    case Some(v) =>
      var asn := ToUint32(v);
      Some((asn, OriginAnnouncement(Trim(f2), asn).(rovInvalid := Trim(f3) == "True")))
  }

  /** A row of the announcement file: an empty row, one starting with `#` and one with fewer than three fields are skipped. */
  function ParseSeedLine(line: string): (r: Option<(Asn, Announcement)>)
    ensures line == [] || line[0] == '#' ==> r.None?
  {
    if line == [] || line[0] == '#' then None
    else
      match SeedSegments(line)
      case None => None
      case Some((f1, f2, f3)) => SeedOf(f1, f2, f3)
  }

  /** Every row, read. */
  function ParseSeeds(lines: seq<string>): (r: seq<Option<(Asn, Announcement)>>)
    ensures |r| == |lines|
    ensures forall i :: 0 <= i < |lines| ==> r[i] == ParseSeedLine(lines[i])
    decreases |lines|
  {
    if lines == [] then [] else [ParseSeedLine(lines[0])] + ParseSeeds(lines[1..])
  }

  /** Seeds every readable row in order. */
  function SeedAll(g: Graph, seeds: seq<Option<(Asn, Announcement)>>): Graph
    decreases |seeds|
  {
    if seeds == [] then g
    else
      var g1 := match seeds[0] case Some((asn, ann)) => Seed(g, asn, ann) case None => g;
      SeedAll(g1, seeds[1..])
  }

  /** The first line of the file is a header and is never read as a row. */
  function DataRows(lines: seq<string>): (r: seq<string>)
    ensures lines != [] ==> lines == [lines[0]] + r
  {
    if lines == [] then [] else lines[1..]
  }

  /** Where the commas of `f1,f2,f3` sit, and what lies between them. */
  lemma CommasAt(f1: string, f2: string, f3: string)
    requires ',' !in f1 && ',' !in f2 && ',' !in f3
    ensures var line := f1 + "," + f2 + "," + f3;
      var i := |f1|;
      var j := i + 1 + |f2|;
      && j < |line| && line[i] == ',' && line[j] == ','
      && (forall n :: 0 <= n < |line| && n != i && n != j ==> line[n] != ',')
      && line[..i] == f1 && line[i + 1..j] == f2 && line[j + 1..] == f3
  {
    var line := f1 + "," + f2 + "," + f3;
    var i := |f1|;
    var j := i + 1 + |f2|;
    forall n | 0 <= n < |line| && n != i && n != j
      ensures line[n] != ','
    {
      if n < i {
        assert line[n] == f1[n];
      } else if n < j {
        assert line[n] == f2[n - i - 1];
      } else {
        assert line[n] == f3[n - j - 1];
      }
    }
    assert line[..i] == f1;
    assert line[i + 1..j] == f2;
    assert line[j + 1..] == f3;
  }

  /** A row with commas at `i` and `j` only, and text after the second, splits into the text between. */
  lemma SeedSegmentsAt(line: string, i: nat, j: nat)
    requires i < j < |line| - 1
    requires line[i] == ',' && line[j] == ','
    requires forall n :: 0 <= n < |line| && n != i && n != j ==> line[n] != ','
    ensures SeedSegments(line) == Some((line[..i], line[i + 1..j], line[j + 1..]))
  {
    FindFromStops(line, 0, ',', i);
    var g1 := Getline(line, Cursor(0, false), ',', "");
    assert g1 == Got(true, line[..i], Cursor(i + 1, false));
    FindFromStops(line, i + 1, ',', j);
    var g2 := Getline(line, g1.next, ',', "");
    assert g2 == Got(true, line[i + 1..j], Cursor(j + 1, false));
    FindFromStops(line, j + 1, ',', |line|);
    var g3 := Getline(line, g2.next, ',', "");
    assert g3 == Got(true, line[j + 1..], Cursor(|line|, true));
  }

  /** A row splits at its two commas. */
  lemma SeedSegmentsOf(f1: string, f2: string, f3: string)
    requires ',' !in f1 && ',' !in f2 && ',' !in f3 && f3 != []
    ensures SeedSegments(f1 + "," + f2 + "," + f3) == Some((f1, f2, f3))
  {
    CommasAt(f1, f2, f3);
    SeedSegmentsAt(f1 + "," + f2 + "," + f3, |f1|, |f1| + 1 + |f2|);
  }

  /**
   * The fields of a row are split on `,` and trimmed: a row not starting
   * with `#` whose third field is not empty reads as its three fields.
   */
  lemma SeedFields(f1: string, f2: string, f3: string)
    requires ',' !in f1 && ',' !in f2 && ',' !in f3 && f3 != []
    requires f1 == [] || f1[0] != '#'
    ensures ParseSeedLine(f1 + "," + f2 + "," + f3) == SeedOf(f1, f2, f3)
  {
    var line := f1 + "," + f2 + "," + f3;
    assert line[0] == (if f1 == [] then ',' else f1[0]);
    SeedSegmentsOf(f1, f2, f3);
  }

  /** A rendered AS number, a prefix and a flag, with white space around each, convert back to the seed. */
  lemma SeedOfRendered(asn: Asn, prefix: Prefix, rovInvalid: bool, w: string)
    requires prefix == [] || (!IsSpace(prefix[0]) && !IsSpace(prefix[|prefix| - 1]))
    requires AllSpace(w)
    ensures var flag := if rovInvalid then "True" else "False";
      SeedOf(w + NatToString(asn) + w, w + prefix + w, w + flag + w) == Some((asn, OriginAnnouncement(prefix, asn).(rovInvalid := rovInvalid)))
  {
    var flag := if rovInvalid then "True" else "False";
    TrimPadded(w, NatToString(asn), w);
    TrimPadded(w, prefix, w);
    TrimPadded(w, flag, w);
    StoulOfNatToString(asn, []);
    assert NatToString(asn) + [] == NatToString(asn);
  }

  /**
   * Reading a row back: a prefix free of commas and of surrounding white
   * space, with white space around each field, yields the announcement the
   * row `asn,prefix,True` or `asn,prefix,False` was written from.
   */
  lemma SeedTextRoundTrip(asn: Asn, prefix: Prefix, rovInvalid: bool, w: string)
    requires ',' !in prefix && (prefix == [] || (!IsSpace(prefix[0]) && !IsSpace(prefix[|prefix| - 1])))
    requires AllSpace(w)
    ensures var flag := if rovInvalid then "True" else "False";
      ParseSeedLine((w + NatToString(asn) + w) + "," + (w + prefix + w) + "," + (w + flag + w))
        == Some((asn, OriginAnnouncement(prefix, asn).(rovInvalid := rovInvalid)))
  {
    var flag := if rovInvalid then "True" else "False";
    var f1 := w + NatToString(asn) + w;
    var f2 := w + prefix + w;
    var f3 := w + flag + w;
    SpacesHaveNo(w, ',');
    SpacesHaveNo(w, '#');
    DigitsHaveNo(NatToString(asn), ',');
    assert ',' !in flag;
    assert f1[0] == (if w == [] then NatToString(asn)[0] else w[0]);
    SeedFields(f1, f2, f3);
    SeedOfRendered(asn, prefix, rovInvalid, w);
  }

  // ------------------------------------------------------------ ROV deployment

  /** One line of the ROV file: an empty line is skipped, otherwise the trimmed line is an AS number or ignored. */
  function ParseRovLine(line: string): (r: Option<Asn>)
    ensures r.Some? <==> line != [] && Stoul(Trim(line)).Some?
  {
    if line == [] then None
    else
      match Stoul(Trim(line))
      case None => None
      case Some(v) => Some(ToUint32(v))
  }

  /** Every line of the ROV file, read. */
  function ParseRovs(lines: seq<string>): (r: seq<Option<Asn>>)
    ensures |r| == |lines|
    ensures forall i :: 0 <= i < |lines| ==> r[i] == ParseRovLine(lines[i])
    decreases |lines|
  {
    if lines == [] then [] else [ParseRovLine(lines[0])] + ParseRovs(lines[1..])
  }

  /** Gives every AS named, in order, a fresh ROV policy. */
  function MarkRov(g: Graph, asns: seq<Option<Asn>>): Graph
    decreases |asns|
  {
    if asns == [] then g
    else
      var g1 := match asns[0] case Some(asn) => SetRov(g, asn) case None => g;
      MarkRov(g1, asns[1..])
  }

  /** Reading an AS number back, with white space (a carriage return, say) around it. */
  lemma RovTextRoundTrip(asn: Asn, w1: string, w2: string)
    requires AllSpace(w1) && AllSpace(w2)
    ensures ParseRovLine(w1 + NatToString(asn) + w2) == Some(asn)
  {
    TrimPadded(w1, NatToString(asn), w2);
    StoulOfNatToString(asn, []);
    assert NatToString(asn) + [] == NatToString(asn);
  }

  // ------------------------------------------------------------ one line at a time

  /** Building from line `i` on is applying line `i`, then building from the next. */
  lemma BuildLinksAt(g: Graph, links: seq<LinkLine>, i: nat)
    requires i < |links| && !links[i].Unreadable?
    ensures BuildLinks(g, links[i..]) == BuildLinks(ApplyLink(g, links[i]), links[i + 1..])
  {
    assert links[i..][1..] == links[i + 1..];
  }

  /** Seeding from row `i` on is seeding row `i`, then seeding from the next. */
  lemma SeedAllAt(g: Graph, seeds: seq<Option<(Asn, Announcement)>>, i: nat)
    requires i < |seeds|
    ensures SeedAll(g, seeds[i..]) == SeedAll(match seeds[i] case Some((asn, ann)) => Seed(g, asn, ann) case None => g, seeds[i + 1..])
  {
    assert seeds[i..][1..] == seeds[i + 1..];
  }

  /** Marking from line `i` on is marking line `i`, then marking from the next. */
  lemma MarkRovAt(g: Graph, asns: seq<Option<Asn>>, i: nat)
    requires i < |asns|
    ensures MarkRov(g, asns[i..]) == MarkRov(match asns[i] case Some(asn) => SetRov(g, asn) case None => g, asns[i + 1..])
  {
    assert asns[i..][1..] == asns[i + 1..];
  }

  // ------------------------------------------------------------ reading one line in place

  /** Reads a relationship line as the building loop does, trimming each field with the index loops. */
  method ReadLinkLine(line: string) returns (l: LinkLine)
    ensures l == ParseLinkLine(line)
  {
    if line == [] || line[0] == '#' {
      return Skip;
    }
    var g := Getline(line, Cursor(0, false), '|', "");
    var first := TrimLoop(g.field);
    g := Getline(line, g.next, '|', g.field);
    var second := TrimLoop(g.field);
    g := Getline(line, g.next, '|', g.field);
    var third := TrimLoop(g.field);
    match (Stoul(first), Stoul(second), Stoi(third))
    case (Some(a), Some(b), Some(rel)) =>
      l := Link(ToUint32(a), ToUint32(b), rel);
    case _ =>
      l := Unreadable;
  }

  /** Reads an announcement row as the seeding loop does. */
  method ReadSeedLine(line: string) returns (r: Option<(Asn, Announcement)>)
    ensures r == ParseSeedLine(line)
  {
    if line == [] || line[0] == '#' {
      return None;
    }
    var g1 := Getline(line, Cursor(0, false), ',', "");
    if !g1.ok {
      return None;
    }
    var g2 := Getline(line, g1.next, ',', "");
    if !g2.ok {
      return None;
    }
    var g3 := Getline(line, g2.next, ',', "");
    if !g3.ok {
      return None;
    }
    var asnText := TrimLoop(g1.field);
    var prefix := TrimLoop(g2.field);
    var rov := TrimLoop(g3.field);
    match Stoul(asnText)
    case None =>
      r := None;
    case Some(v) =>
      var asn := ToUint32(v);
      var ann := OriginAnnouncement(prefix, asn);
      ann := ann.(rovInvalid := rov == "True");
      r := Some((asn, ann));
  }

  /** Reads a line of the ROV file as the marking loop does. */
  method ReadRovLine(line: string) returns (r: Option<Asn>)
    ensures r == ParseRovLine(line)
  {
    if line == [] {
      return None;
    }
    var trimmed := TrimLoop(line);
    match Stoul(trimmed)
    case None =>
      r := None;
    case Some(v) =>
      r := Some(ToUint32(v));
  }

  // ------------------------------------------------------------ invariants of the folds

  /** Reading a relationship file keeps the graph well formed, whether it stops early or not. */
  lemma {:induction false} BuildLinksWellFormed(g: Graph, links: seq<LinkLine>)
    requires WellFormed(g)
    ensures WellFormed(BuildLinks(g, links).0)
    decreases |links|
  {
    if links != [] && !links[0].Unreadable? {
      var l := links[0];
      if l.Link? && l.rel == -1 {
        AddProviderWellFormed(g, l.first, l.second);
      } else if l.Link? && l.rel == 0 {
        AddPeerWellFormed(g, l.first, l.second);
      }
      BuildLinksWellFormed(ApplyLink(g, l), links[1..]);
    }
  }

  /** Reading stops at the first unreadable line, whatever follows it. */
  lemma {:induction false} BuildLinksStops(g: Graph, links: seq<LinkLine>, rest: seq<LinkLine>)
    requires BuildLinks(g, links).1
    ensures BuildLinks(g, links + [Unreadable] + rest) == (BuildLinks(g, links).0, false)
    decreases |links|
  {
    if links == [] {
      assert links + [Unreadable] + rest == [Unreadable] + rest;
    } else {
      assert (links + [Unreadable] + rest)[1..] == links[1..] + [Unreadable] + rest;
      BuildLinksStops(ApplyLink(g, links[0]), links[1..], rest);
    }
  }

  /** Every AS a readable line of the ROV file names ends up present with a ROV policy. */
  lemma {:induction false} MarkRovMarks(g: Graph, asns: seq<Option<Asn>>, i: nat)
    requires i < |asns| && asns[i].Some?
    ensures asns[i].value in MarkRov(g, asns) && MarkRov(g, asns)[asns[i].value].policy.kind == ROV
    decreases |asns|
  {
    var g1 := match asns[0] case Some(asn) => SetRov(g, asn) case None => g;
    if i == 0 {
      MarkRovKeeps(g1, asns[1..], asns[0].value);
    } else {
      assert asns[1..][i - 1] == asns[i];
      MarkRovMarks(g1, asns[1..], i - 1);
    }
  }

  /** Marking never removes an AS nor a ROV policy. */
  lemma {:induction false} MarkRovKeeps(g: Graph, asns: seq<Option<Asn>>, asn: Asn)
    requires asn in g && g[asn].policy.kind == ROV
    ensures asn in MarkRov(g, asns) && MarkRov(g, asns)[asn].policy.kind == ROV
    decreases |asns|
  {
    if asns != [] {
      var g1 := match asns[0] case Some(a) => SetRov(g, a) case None => g;
      MarkRovKeeps(g1, asns[1..], asn);
    }
  }
}
