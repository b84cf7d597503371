# BGP route propagation simulator — a verified model

This project models the core of a small BGP simulator written in C++.
Autonomous systems (ASes) are nodes of a graph linked by provider/customer and
peer relationships. Each AS runs a routing policy: plain BGP, or ROV, which
drops announcements flagged ROV-invalid. Announcements for IP prefixes are
seeded at origin ASes. They then propagate in three phases:

- up the provider hierarchy, rank by rank;
- one hop across peer links;
- back down to customers, rank by rank.

Every AS keeps the best announcement per prefix in its local RIB, preferring:

1. origin over customer over peer over provider routes;
2. then shorter AS paths;
3. then the lower next-hop AS.

The final RIBs are dumped as CSV.

The modules follow the program's structure:

- `Announcements` (`announcement.dfy`): the announcement record and its two constructors.
- `Preference` (`preference.dfy`): the route preference and the best-candidate scan.
- `Policies` (`policy.dfy`): the BGP and ROV policies.
  - `PolicyState` is the value of a policy object.
  - The class `Policy` updates one in place.
- `Graphs` (`graph.dfy`): the AS graph as a value (`map<Asn, ASNode>`) and its building operations.
- `Cycles` (`cycles.dfy`): provider-cycle detection by a three-colour depth-first search.
- `Ranks` (`ranks.dfy`): propagation ranks (the longest customer chain below an AS) and the rank buckets.
- `Propagation`, `Routes` (`propagation.dfy`, `routes.dfy`): the three propagation phases as functions on graph values, and what they guarantee about the routes: queues end empty, ROV filtering and ROV flags are kept, and a customer's route reaches its providers.
- `Scenarios` (`scenarios.dfy`): the three ROV scenarios of `tests/test_rov.cpp` on the graphs they build.
- `Text` (`text.dfy`): `isspace`, the trim loops, `std::getline` on a string stream, `std::stoul`/`std::stoi`, and decimal rendering.
- `Loaders` (`loaders.dfy`): the line formats of the relationship, announcement and ROV files.
- `Dump` (`dump.dfy`): the RIB dump format and its ascending-AS order.
- `ASGraphs` (`asgraph.dfy`): the graph object.
  - The class `ASGraph` holds the node map and updates it in place.
  - Every method is proved equal to the corresponding function on graph values.
  - Every public operation keeps the graph well formed, with every received queue empty between operations and no ROV-invalid route held by an ROV AS.
- `Cli` (`cli.dfy`): the command-line handling of `main`.

The repository's own harness, `bench/test.py` (lines 26-40), runs the simulator expecting a `ribs.csv` in its working directory and a non-zero exit for the `cycle` case. The model follows the code, which does neither:

- `src/main.cpp` only checks its arguments and echoes the three paths.
  - It never builds a graph.
  - It never writes `ribs.csv`.
  - It never rejects cyclic input.
  - `Cli.ParseCommandLine` models exactly that.
- The headers are stale. `include/Announcement.h` has neither the `rov_invalid` field nor the five-argument constructor that `src/BGP.cpp` and `src/ASGraph.cpp` use. The model has both, with `rov_invalid` false for an origin announcement.

## Model

| member | source | states |
|---|---|---|
| Announcements.OriginAnnouncement | include/Announcement.h:21-24 | an origin announcement has the path `[origin]`, next hop `origin`, relationship Origin, and is not ROV-invalid |
| Announcements.ReceivedAnnouncement | include/Announcement.h:27-28 | a received announcement carries exactly the prefix, next hop, relationship, path and ROV flag it is given |
| Preference.ScoreOrder | src/BGP.cpp:4-12 | Origin scores above Customer, Customer above Peer, Peer above Provider |
| Preference.BetterIsLexicographic | src/BGP.cpp:14-21 | `better` is the lexicographic order on (relationship score, shorter path, lower next hop) |
| Preference.Better2IsBetter | src/BGP.cpp:64-72 | comparing lengths after adding one to both paths orders announcements exactly as `better` does |
| Preference.BetterIsStrictOrder | src/BGP.cpp:14-21 | preference is irreflexive, asymmetric and transitive |
| Preference.TieIsEqualKey | src/BGP.cpp:14-21 | two announcements are incomparable exactly when their keys are equal; incomparability is transitive |
| Preference.BestIndexUpToIsBest | src/BGP.cpp:27-30 | the scan's index beats every earlier candidate, and no later candidate beats it (first best wins) |
| Preference.ChosenIsBest | src/BGP.cpp:27-32 | the chosen announcement is in the queue, and no candidate is preferred to it |
| Preference.ChosenIsOrderFree | src/BGP.cpp:27-30 | when candidates have distinct keys, reordering the queue does not change the choice |
| Preference.SelectBest | src/BGP.cpp:27-30 | the index loop returns the best index, and no candidate is preferred to the one it picks |
| Policies.NewPolicy | include/BGP.h:14 | a new policy has an empty local RIB and an empty queue |
| Policies.Receive | include/ROV.h:10-16 | ROV drops an ROV-invalid announcement and leaves the state unchanged. Otherwise the announcement is appended to its own prefix's queue and no other queue changes |
| Policies.Stored | src/BGP.cpp:79-86 | the stored copy prepends the processing AS to the path and keeps prefix, next hop, relationship and ROV flag |
| Policies.Process | src/BGP.cpp:45-46 | processing leaves the policy kind and an empty received queue |
| Policies.ProcessFor | src/BGP.cpp:99 | processing for an AS leaves the policy kind and an empty received queue |
| Policies.ProcessDecides | src/BGP.cpp:23-44 | per prefix: the RIB keeps every key and gains exactly the prefixes with candidates. An untouched prefix keeps its entry. A decided prefix holds the chosen candidate or the old entry; no candidate beats it, and the old entry is replaced only by a strictly better one |
| Policies.ProcessForDecides | src/BGP.cpp:49-97 | the same decision per prefix for processing with prepending: the stored copy of the chosen candidate, or the old entry, whichever is not beaten |
| Policies.StoredPreservesPreference | src/BGP.cpp:64-72 | prepending the same AS to both paths keeps the preference between two candidates |
| Policies.ProcessedRibOnStep | src/BGP.cpp:34-43 | deciding one more prefix inserts the chosen candidate when absent or strictly better, and otherwise keeps the entry |
| Policies.ProcessedRibForOnStep | src/BGP.cpp:88-96 | the same step for processing with prepending |
| Policies.ReceiveRovClean | include/ROV.h:10-16 | an ROV policy that holds and queues no ROV-invalid announcement still holds and queues none after receiving any announcement, and a fresh policy holds none |
| Policies.ProcessedFrom | src/BGP.cpp:23-44 | every RIB entry after processing is either the entry that was there before or the chosen candidate of its prefix's queue |
| Policies.ProcessedForFrom | src/BGP.cpp:49-97 | every RIB entry after processing with prepending is either the old entry or the stored copy of the chosen candidate |
| Policies.ProcessRovClean | src/BGP.cpp:23-97 | processing, with or without prepending, keeps an ROV policy free of ROV-invalid routes |
| Policies.ReceiveFlaggedAs | include/BGP.h:16 | when every route for a prefix carries the same ROV flag, receiving an announcement with that flag (or for another prefix) keeps it so |
| Policies.ProcessFlaggedAs | src/BGP.cpp:23-97 | processing keeps every route for a prefix carrying the same ROV flag, since the RIB only takes queued candidates |
| Policies.Policy.constructor | include/BGP.h:14 | a new policy object holds a fresh policy of the given kind |
| Policies.Policy.ReceiveAnnouncement | include/BGP.h:16 | receiving in place has the effect of `Receive` |
| Policies.Policy.ProcessAnnouncements | src/BGP.cpp:3-47 | the in-place loops over queue and candidates have the effect of `Process` |
| Policies.Policy.ProcessAnnouncementsFor | src/BGP.cpp:49-100 | the in-place loops have the effect of `ProcessFor` |
| Policies.Policy.GetLocalRib | include/BGP.h:19 | returns the current local RIB |
| Graphs.NewNode | src/ASGraph.cpp:22-24 | a new node has no links and a fresh BGP policy |
| Graphs.EmptyWellFormed | include/ASGraph.h:12 | the empty graph is well formed (links closed and symmetric) |
| Graphs.AddNode | src/ASGraph.cpp:20-27 | adding an AS adds exactly that key, with a new node if it was absent, and changes no existing node |
| Graphs.AddNodeIdempotent | src/ASGraph.cpp:21 | adding an AS twice is adding it once, and adding a present AS changes nothing |
| Graphs.SetRov | src/ASGraph.cpp:29-32 | the AS is present afterwards with a fresh ROV policy and its links kept; every other AS is unchanged |
| Graphs.AddProvider | src/ASGraph.cpp:157-163 | both ASes are present; the customer is appended to the provider's customers and the provider to the customer's providers; nothing else changes |
| Graphs.AddProviderLinks | src/ASGraph.cpp:161-162 | after adding the edge, each end lists the other in the matching role |
| Graphs.AddPeer | src/ASGraph.cpp:165-171 | both ASes are present and each is appended to the other's peers (twice to its own list for a self-peer); nothing else changes |
| Graphs.AddPeerLinks | src/ASGraph.cpp:169-170 | after adding the edge, each end lists the other as a peer |
| Graphs.Seed | src/ASGraph.cpp:109-118 | seeding adds the AS if needed and makes it receive and then process the announcement; every other AS is unchanged |
| Graphs.AddNodeWellFormed | src/ASGraph.cpp:20-27 | adding an AS keeps the graph well formed |
| Graphs.SetRovWellFormed | src/ASGraph.cpp:29-32 | switching an AS to ROV keeps the graph well formed |
| Graphs.AddProviderWellFormed | src/ASGraph.cpp:157-163 | adding a provider edge keeps every link closed and symmetric |
| Graphs.AddPeerWellFormed | src/ASGraph.cpp:165-171 | adding a peer edge keeps every link closed and symmetric |
| Graphs.SeedWellFormed | src/ASGraph.cpp:109-118 | seeding keeps the graph well formed |
| Cycles.DescendingAcyclic | src/ASGraph.cpp:120-121 | a map that strictly decreases along every provider-to-customer edge rules out a cycle |
| Cycles.BackEdgeCycle | src/ASGraph.cpp:136-138 | an edge back to a grey AS on the search path closes a real cycle |
| Cycles.Visit | src/ASGraph.cpp:131-146 | the recursive search from a white AS finds a real cycle, or else blackens the AS with the search invariant kept |
| Cycles.HasProviderCycle | src/ASGraph.cpp:122-155 | returns true exactly when the provider-to-customer edges contain a cycle; when false, finishing times descend along every edge |
| Ranks.MaxPlusOneIsMax | src/ASGraph.cpp:256-260 | the rank loop yields one more than the largest customer rank, 0 exactly when there are no customers |
| Ranks.RankingProperties | src/ASGraph.cpp:250-263 | an AS has rank 0 exactly when it has no customers; every customer ranks lower; some customer ranks exactly one lower |
| Ranks.RankingAcyclic | src/ASGraph.cpp:238-264 | a graph that has a ranking has no provider cycle |
| Ranks.RankingUnique | src/ASGraph.cpp:238-264 | the ranking is unique, so it does not depend on the order the search visits ASes in |
| Ranks.RankDfs | src/ASGraph.cpp:238-264 | the memoised search returns the AS's rank, keeps every memoised rank, and only adds consistent ranks |
| Ranks.RankAll | src/ASGraph.cpp:266-270 | ranking every AS gives the ranking of the whole graph and its maximum |
| Ranks.BucketMembership | src/ASGraph.cpp:272-276 | an AS is in bucket `i` exactly when it is in the graph with rank `i` |
| Ranks.FillBuckets | src/ASGraph.cpp:272-276 | the bucket loop puts each AS in the bucket of its rank |
| Ranks.FlattenByProviders | src/ASGraph.cpp:230-279 | fails exactly when there is a provider cycle; otherwise returns the buckets of the graph's ranking |
| Propagation.Sent | src/ASGraph.cpp:300 | a sent copy keeps prefix, path and ROV flag, names the sender as next hop, and is marked Customer going up, Peer across (line 326) and Provider going down (line 349) |
| Propagation.SendRibEffect | src/ASGraph.cpp:294-302 | sending a RIB changes only received queues. Each target's queue for a prefix gains one sent copy per time the target is listed, unless its ROV policy drops the copy |
| Propagation.SendRibElsewhere | src/ASGraph.cpp:294-302 | an AS that is not a target of the sender is untouched |
| Propagation.PropagateShape | src/ASGraph.cpp:281-364 | propagation changes only RIBs and queues: the ASes, their links and policy kinds stay the same |
| Routes.SendAllElsewhere | src/ASGraph.cpp:288-304 | a bucket's sends leave alone every AS none of its senders targets |
| Routes.ProcessAllEffect | src/ASGraph.cpp:307-313 | processing a bucket empties the queues of its ASes and leaves every other AS unchanged |
| Routes.DownQuiet | src/ASGraph.cpp:337-363 | the downward phase ends with every received queue empty |
| Routes.PropagateQuiet | src/ASGraph.cpp:281-364 | after the three phases no announcement is left in any received queue |
| Routes.AddNodeUpholds | src/ASGraph.cpp:20-32 | adding an AS and switching it to ROV keep both route invariants: no ROV AS holds or queues an ROV-invalid route, and all routes for a prefix carry one ROV flag |
| Routes.ProviderUpholds | src/ASGraph.cpp:157-163 | adding a provider edge keeps both route invariants |
| Routes.PeerUpholds | src/ASGraph.cpp:165-171 | adding a peer edge keeps both route invariants |
| Routes.SeedUpholds | src/ASGraph.cpp:109-118 | seeding keeps the ROV filter, and keeps a prefix's single ROV flag when the seeded announcement has that flag |
| Routes.ProviderQuiet | src/ASGraph.cpp:157-163 | adding a provider edge leaves every received queue empty |
| Routes.PeerQuiet | src/ASGraph.cpp:165-171 | adding a peer edge leaves every received queue empty |
| Routes.OfferedUpholds | src/ASGraph.cpp:298-301 | offering a sent copy to a target keeps both route invariants, since a sent copy keeps its ROV flag and an ROV target drops it when it is invalid |
| Routes.SendRibUpholds | src/ASGraph.cpp:294-302 | sending an AS's RIB keeps both route invariants |
| Routes.ProcessNodeUpholds | src/ASGraph.cpp:308-312 | processing one AS's queue keeps both route invariants |
| Routes.PropagateUpholds | src/ASGraph.cpp:281-364 | the three phases keep both route invariants: afterwards no ROV AS holds an ROV-invalid route |
| Routes.RovDropsInvalidPrefix | src/ASGraph.cpp:281-364 | when every route for a prefix is ROV-invalid, no ROV AS holds a route for it after propagation, and every route held for it is still invalid |
| Routes.SendRibDelivers | src/ASGraph.cpp:294-302 | a target that accepts the sent copy has a candidate for the prefix waiting in its queue |
| Routes.ProcessNodeKeeps | src/ASGraph.cpp:308-312 | processing never removes a RIB entry, and an AS with a waiting candidate ends with a route for its prefix |
| Routes.SendAllDelivers | src/ASGraph.cpp:290-304 | when a bucket's sender holds a route, every target that accepts it has a candidate waiting after the bucket's sends |
| Routes.ProcessAllKeeps | src/ASGraph.cpp:307-313 | a bucket's processing keeps every route and turns a waiting candidate of a bucket member into a route |
| Routes.UpFromReaches | src/ASGraph.cpp:288-314 | in the upward phase a route held by a customer reaches each of its higher-ranked providers that runs BGP or is offered only valid routes for the prefix |
| Routes.ProviderGetsRoute | src/ASGraph.cpp:281-364 | after propagation, a provider of an AS holding a route for a prefix holds a route for it too, when the provider runs BGP or every route for the prefix is valid |
| Scenarios.ScenarioShape | tests/test_rov.cpp:16-24 | the test graph is well formed, with AS 2 the provider of AS 1, AS 2's policy as chosen, and AS 1 holding the seeded route |
| Scenarios.ScenarioUpholds | tests/test_rov.cpp:16-24 | before propagation the test graph keeps the ROV filter, and every route for the prefix carries the seeded flag |
| Scenarios.RovProviderDropsHijack | tests/test_rov.cpp:14-31 | an ROV provider ends with no route for the hijacked prefix, for every ranking and peer order |
| Scenarios.BgpProviderStoresHijack | tests/test_rov.cpp:34-47 | a BGP provider ends with a route for the hijacked prefix |
| Scenarios.RovProviderStoresValid | tests/test_rov.cpp:49-62 | an ROV provider ends with a route for a valid announcement |
| ASGraphs.ASGraph.constructor | include/ASGraph.h:12 | a new graph object has no AS |
| ASGraphs.ASGraph.AddNode | src/ASGraph.cpp:20-27 | updates the node map as `Graphs.AddNode` and keeps it valid: well formed, quiet, and no ROV AS holding an ROV-invalid route |
| ASGraphs.ASGraph.SetRov | src/ASGraph.cpp:29-32 | updates the node map as `Graphs.SetRov` and keeps it valid |
| ASGraphs.ASGraph.AddProvider | src/ASGraph.cpp:157-163 | updates the node map as `Graphs.AddProvider` and keeps it valid |
| ASGraphs.ASGraph.AddPeer | src/ASGraph.cpp:165-171 | updates the node map as `Graphs.AddPeer` and keeps it valid |
| ASGraphs.ASGraph.SeedAnnouncement | src/ASGraph.cpp:109-118 | updates the node map as `Graphs.Seed` and keeps it valid: every queue empty and no ROV AS holding an ROV-invalid route |
| ASGraphs.ASGraph.HasProviderCycle | src/ASGraph.cpp:122-155 | true exactly when the graph has a provider cycle |
| ASGraphs.ASGraph.FlattenByProviders | src/ASGraph.cpp:230-279 | no result exactly on a provider cycle (the thrown error); otherwise the rank buckets |
| ASGraphs.ASGraph.SendRibOf | src/ASGraph.cpp:294-302 | the nested RIB and target loops have the effect of `SendRib` |
| ASGraphs.ASGraph.SendToAll | src/ASGraph.cpp:298-302 | delivers one announcement to each listed target in turn, keeping the set of ASes |
| ASGraphs.ASGraph.SendBucket | src/ASGraph.cpp:290-304 | every AS of the bucket sends its RIB in the given direction |
| ASGraphs.ASGraph.ProcessBucket | src/ASGraph.cpp:308-312 | every AS of the bucket processes its queue for itself |
| ASGraphs.ASGraph.SendToPeers | src/ASGraph.cpp:318-330 | every AS, each exactly once in the map's order, sends its RIB to its peers |
| ASGraphs.ASGraph.ProcessEveryNode | src/ASGraph.cpp:332-335 | every AS processes its queue for itself |
| ASGraphs.ASGraph.PropagateUp | src/ASGraph.cpp:288-314 | the upward loop from rank 0 has the effect of `UpFrom` |
| ASGraphs.ASGraph.PropagateAcross | src/ASGraph.cpp:316-335 | the peer phase sends from every AS once and then processes all |
| ASGraphs.ASGraph.PropagateDown | src/ASGraph.cpp:338-363 | the downward loop from the top rank has the effect of `DownFrom` |
| ASGraphs.ASGraph.PropagateAnnouncements | src/ASGraph.cpp:281-364 | fails, changing nothing, exactly on a provider cycle. Otherwise the node map becomes `Propagate` of the old one over the rank buckets and an order of all ASes, and stays valid: well formed, every queue empty, no ROV AS holding an ROV-invalid route |
| ASGraphs.ASGraph.BuildGraphFromLines | src/ASGraph.cpp:173-228 | the graph gains the edges of the lines in order; an unreadable line stops the reading with the earlier edges in place |
| ASGraphs.ASGraph.AddLink | src/ASGraph.cpp:218-226 | relationship -1 adds a provider edge, 0 a peer edge, and any other value nothing |
| ASGraphs.ASGraph.LoadAnnouncementLines | src/ASGraph.cpp:60-107 | skips the header, then seeds every readable row in order |
| ASGraphs.ASGraph.LoadRovLines | src/ASGraph.cpp:34-58 | every readable line switches its AS to ROV, in order |
| ASGraphs.ASGraph.LoadRovLine | src/ASGraph.cpp:42-56 | one line: its AS gets a fresh ROV policy, or nothing happens when the line is empty or malformed |
| ASGraphs.ASGraph.DumpRibs | src/ASGraph.cpp:366-405 | the dump starts with the header, followed by one row per RIB entry, ASes ascending, each AS's rows in its RIB's order |
| Text.TrimIsSlice | src/ASGraph.cpp:45-50 | trimming yields a slice of the input with no white space at either end, and everything removed is white space |
| Text.TrimIdempotent | src/ASGraph.cpp:84-90 | trimming twice is trimming once |
| Text.TrimPadded | src/ASGraph.cpp:45-50 | trimming white-space padding around text that has none at its ends gives back the text |
| Text.TrimLoop | src/ASGraph.cpp:84-90 | the start and end index loops compute the trim |
| Text.GetlineReads | src/ASGraph.cpp:188-194 | reading a field stops at the delimiter or the end. The field has no delimiter, the consumed text is the field plus the delimiter, and after end of input the field is left unchanged |
| Text.ToUint32 | src/ASGraph.cpp:52 | the cast to 32 bits keeps values below 2^32 |
| Text.DecValueOfNatToString | src/ASGraph.cpp:400 | the decimal rendering of a number reads back as that number |
| Text.StoulOfNatToString | src/ASGraph.cpp:200 | `stoul` of a rendered number followed by a non-digit gives the number |
| Text.StoiOfIntToString | src/ASGraph.cpp:216 | `stoi` of a rendered 32-bit integer followed by a non-digit gives the integer |
| Loaders.ParseLinkLine | src/ASGraph.cpp:184-186 | a line is skipped exactly when it is empty or starts with `#` |
| Loaders.ParseLinks | src/ASGraph.cpp:182-227 | every line of the relationship file is read on its own, in order |
| Loaders.LinkFields | src/ASGraph.cpp:188-216 | fields without a bar character are split at the first two bars, and anything after a third bar is ignored |
| Loaders.LinkOfRendered | src/ASGraph.cpp:196-216 | white-space-padded rendered numbers read back as the two ASes and the relationship |
| Loaders.LinkTextRoundTrip | src/ASGraph.cpp:182-216 | a written line of two AS numbers and a relationship separated by bars, each padded with white space, reads back as the link |
| Loaders.BuildLinksWellFormed | src/ASGraph.cpp:218-226 | building from any lines keeps the graph well formed |
| Loaders.BuildLinksStops | src/ASGraph.cpp:200 | an unreadable line aborts the reading: nothing after it is applied |
| Loaders.ReadLinkLine | src/ASGraph.cpp:184-216 | the in-place reading of one line with the trim loops gives `ParseLinkLine` |
| Loaders.SeedOf | src/ASGraph.cpp:92-101 | a row seeds exactly when its trimmed AS field converts. It seeds an origin announcement of the trimmed prefix, ROV-invalid exactly when the trimmed flag is `True` |
| Loaders.ParseSeedLine | src/ASGraph.cpp:73 | empty and `#` lines seed nothing |
| Loaders.ParseSeeds | src/ASGraph.cpp:72-106 | every row is read on its own, in order |
| Loaders.DataRows | src/ASGraph.cpp:69 | the first line is the header and is not read as data |
| Loaders.SeedFields | src/ASGraph.cpp:75-81 | a row of three comma-free fields is split at its two commas |
| Loaders.SeedTextRoundTrip | src/ASGraph.cpp:72-106 | a written `asn,prefix,True/False` row, padded with white space, reads back as the seed |
| Loaders.ReadSeedLine | src/ASGraph.cpp:73-105 | the in-place reading of one row gives `ParseSeedLine` |
| Loaders.ParseRovLine | src/ASGraph.cpp:42-53 | a line names an AS exactly when it is non-empty and its trim converts |
| Loaders.ParseRovs | src/ASGraph.cpp:41-57 | every line of the ROV file is read on its own, in order |
| Loaders.RovTextRoundTrip | src/ASGraph.cpp:42-53 | a written AS number with white space around it reads back as that AS |
| Loaders.ReadRovLine | src/ASGraph.cpp:42-56 | the in-place reading of one line gives `ParseRovLine` |
| Loaders.MarkRovMarks | src/ASGraph.cpp:41-57 | every AS named by a readable line ends with an ROV policy |
| Loaders.MarkRovKeeps | src/ASGraph.cpp:53 | an AS already running ROV keeps running ROV |
| Dump.FormatPath | src/ASGraph.cpp:391-398 | a formatted path is enclosed in parentheses |
| Dump.FormatPathLoop | src/ASGraph.cpp:391-398 | the index loop writes `FormatPath` |
| Dump.ReadPathOfFormatPath | src/ASGraph.cpp:391-398 | a formatted path reads back as the path, so distinct paths format differently |
| Dump.FormatPathExamples | tests/test_output.cpp:94-96 | `[1, 2, 3]` formats as `(1, 2, 3)`, `[3]` as `(3,)`, and the empty path as `()` |
| Dump.ReadRowOfRow | src/ASGraph.cpp:400 | a row reads back as its AS, prefix and path when the prefix has no comma |
| Dump.SortedAsns | src/ASGraph.cpp:375-378 | the sorted AS list is ascending and holds exactly the ASes of the set |
| Dump.AscendingUnique | src/ASGraph.cpp:378 | two ascending lists of the same ASes are equal |
| Dump.Insert | src/ASGraph.cpp:378 | inserting into an ascending list keeps it ascending and adds exactly that AS |
| Dump.SortedKeys | src/ASGraph.cpp:375-378 | collecting and sorting the keys gives the sorted AS list |
| Dump.DumpLines | src/ASGraph.cpp:373-402 | the dump starts with the header `asn,prefix,as_path`, then the rows |
| Dump.RibEntriesAre | src/ASGraph.cpp:385-401 | an AS's entries are exactly its RIB's prefixes with their paths |
| Dump.EntriesAre | src/ASGraph.cpp:380-402 | the dumped entries are exactly the RIB entries of the listed ASes |
| Dump.EntriesAscending | src/ASGraph.cpp:380 | entries of ascending ASes appear in ascending AS order |
| Dump.DumpIsSortedRib | src/ASGraph.cpp:373-402 | the dump lists exactly the RIB entries of every AS, in ascending AS order |
| Dump.RibRows | src/ASGraph.cpp:385-401 | the RIB loop lists every prefix once and writes one row per entry, as many rows as the RIB has prefixes |
| Cli.FlagsAccepts | src/main.cpp:16-29 | the flag loop succeeds exactly when the arguments pair up and each pair starts with a known flag. An unknown flag or a flag in last position fails |
| Cli.FlagsLastWins | src/main.cpp:19-24 | on accepted arguments each path is the value after the last occurrence of its flag |
| Cli.LastAbsent | src/main.cpp:12-14 | a flag that never occurs leaves its path at its initial value |
| Cli.ThreeFlagsAnyOrder | src/main.cpp:16-29 | the three flags in any order, each once, are accepted, and each path is the argument after its flag |
| Cli.RepeatedAndMissing | src/main.cpp:12-38 | a repeated flag keeps its last value and a missing flag leaves its path empty, and the call still succeeds |
| Cli.ParseCommandLine | src/main.cpp:4-39 | exit code 1 on an argument count other than seven (program name included), an unknown flag or a flag in last position; otherwise 0 with the paths the flags named |

## Left out

- File handling is not modelled.
  - Opening files, the warning on a file that cannot be opened, and splitting a file into lines are left out. The loaders take the file's lines.
  - The dump returns its lines rather than writing a file.
  - The usage and echo messages of `main` go to the standard streams and are not modelled.
- Hash-map iteration order is unspecified in C++, so it is not modelled.
  - The methods choose an arbitrary unvisited key.
  - They return the order they used as a ghost value.
  - Every property is proved for every such order.
- Aliasing through `shared_ptr` nodes and `unique_ptr` policies is not modelled. The graph holds each node's state by value.
- `_propagation_rank` is written by the rank search but never read. The ranks are returned instead.
- Two checks in the source can never be true, so their branches are not modelled:
  - `!node->policy` in `seedAnnouncement` and `dumpRIBsToCSV` (every node gets a policy when it is added);
  - `ranks.empty()` in `propagateAnnouncements` (there is always at least one bucket).
- `_node_map[t]` for a neighbour missing from the map would insert an empty (null) entry. Every neighbour is present in a well-formed graph, and every method requires one.
- `std::sort` is modelled by inserting each AS into an ascending sequence, not by its own algorithm.
- The uncaught exception that `std::stoul`/`std::stoi` throw on an unreadable relationship line ends the program. The model stops reading at that line and reports `false`.
- The uncaught exception that `flattenByProviders` throws on a provider cycle is modelled as a missing result, leaving the graph unchanged.
- Text.Stoul: does not skip leading white space as `std::stoul` does, because every call site passes trimmed text, so no reachable behaviour differs.
- Text.Stoi: does not skip leading white space, for the same reason.
- ASGraphs.ASGraph.PropagateAnnouncements: the exact final RIB entries are not stated. The model proves what the routes keep (queues empty, ROV filtering, ROV flags) and that a customer's route reaches its providers, which covers the three ROV scenarios of `tests/test_rov.cpp`. The conflict scenarios of `tests/test_conflicts.cpp` (shorter path, customer over peer and provider, lower next hop) and the chain paths of `tests/test_output.cpp` are not proved on whole propagations: they need the exact set of candidates each AS receives across all phases. Each single decision is stated by `Policies.ProcessForDecides`.
- Routes.ProviderGetsRoute: reachability is proved for provider links in the upward phase only, not for peers or customers.
- The benchmarking script and the data-download tools are not part of this model.
