# graph-merge, modelled in Dafny

graph-merge de-duplicates the vertices of a property graph. A merge rule names a vertex label.
A properties merge rule also names an ordered list of property keys. Vertices with that label
which have every key are grouped by the values they hold for the keys. Each group with a
non-null key tuple and at least two vertices is fused into one new vertex:

- the members' properties are copied onto the new vertex;
- their edges are re-created on it;
- the members are dropped.

One merge map, shared by every rule, records which new vertex each member went into. When
an edge is re-created, an endpoint that was fused earlier is looked up in that map.

The model has nine modules, one per file:

- `Options`: an `Option` type.
- `ElementProperties`: multi-valued properties, property lookup and property copying.
- `Rules`: `MergeRule` and `PropertiesMergeRule`, their default names and the key tuple of a vertex.
- `Graphs`: the graph, as a class whose methods change it in place. It holds vertex and edge maps, fresh identities and a commit counter.
- `Grouping`: the pure stages of applying one rule. These are the rule filter, the candidate vertices, the grouping by key tuple, the group filter and the order a group's members are listed in.
- `FusionSpec`: what fusing one group produces, stated on values. This covers the fused properties, how each edge touching the group is re-created, and which re-created edges survive.
- `FusionTracking`: the bookkeeping that proves the step-by-step fusion against `FusionSpec`. Each created edge is tagged with the original edge it copies and the pass that made it.
- `Fusion`: `mergeVertices` as imperative code: the member loop, the in-edge pass and the out-edge pass.
- `Merger`: `mergeGraphs(graph, rules)`: the rule loop and the group loop, with the merge map threaded through both.

The model follows the code as written, including these consequences of how it works:

- An edge between two different members of a group comes back as two self-loops on the fused
  vertex. The first member handled re-creates the edge as a temporary edge between the new
  vertex and the second member. Which way that edge points depends on which way the original
  ran. When the second member is handled, that temporary edge is copied again, and the
  original edge is copied as well.
- A self-loop on a member is lost. Its copies end at the member, so they are dropped with it.
- The out-edges of a member are listed after its in-edge pass has run. The in-edge copy of a
  member's self-loop is therefore skipped in the out-pass, because it is in `newEdges`.
  `newEdges` starts empty for each member.
- Copying properties accumulates values per key. The values the target already holds are kept,
  in front, and a value the target already holds for that key is not added again. The second
  half of that rule is what `testSameTypeMerge`
  (`src/test/java/uk/gov/nca/graph/merge/GraphMergerTest.java`, lines 130-166) needs:
  - the Martha vertex fused by the `sameAs` rule must hold the single name "Martha";
  - that lets the name rule then merge it with the third Martha;
  - the test then leaves 3 vertices.

  A copy that kept repeated values would leave 4 vertices.
- Vertex identities are never reused, and merged vertices are dropped. So, between fusions, a
  key of the merge map is never a vertex still in the graph (`FusionSpec.Retired`). Looking up a vertex that is
  still in the graph always falls back to the vertex itself (`FusionSpec.RedirectLive`). The map
  only matters inside a group, for members handled earlier in the same group. Sharing the map
  across rules has no visible effect.

## Model

| member | source | states |
|---|---|---|
| Merger.MergeGraphs | src/main/java/uk/gov/nca/graph/merge/GraphMerger.java:58-107 | Returns the vertices, edges and merge map before each properties rule and after the last. The first entry is the graph as given, with an empty merge map. The last entry is the graph at the end. `RuleSteps` holds over every properties rule: the i-th properties rule, in input order, is one `RuleStep` from the i-th entry to the next, fused properties and edges included. The commit count rises by exactly one per merged group of each properties rule, counted on the graph that rule started from (`Commits`), plus one for the final commit. The vertex count never grows, and every vertex at the end is an old one, unchanged, or a new one carrying the label of a properties rule given. With no properties rule, vertices and edges are unchanged. |
| Merger.ApplyNextRule | src/main/java/uk/gov/nca/graph/merge/GraphMerger.java:70-102 | One turn of the rule loop. Applying the next rule appends the new graph and merge map to the record (`Trace`), and extends `RuleSteps` by exactly one `RuleStep` from the current state to the new one. That step includes the fused properties: the image of each merged vertex holds the accumulated properties of its group, its members taken in some order. The commit count rises by the rule's groups, and `Commits` grows by the same amount. Every vertex still comes from the graph as given, unchanged, or from a properties rule given (`FromRules`). |
| Merger.RuleStepsExtend | src/main/java/uk/gov/nca/graph/merge/GraphMerger.java:70-102 | One more rule step after the steps so far gives the record of one more rule. |
| Merger.TraceExtend | src/main/java/uk/gov/nca/graph/merge/GraphMerger.java:70-102 | Appending a state to the record keeps its first entry and makes the new state the last. |
| Merger.FromRulesTrans | src/main/java/uk/gov/nca/graph/merge/GraphMerger.java:70-102 | Two stretches of rules in a row, the second taking its rules from the first's list, leave every vertex old and unchanged or labelled by one of the rules. |
| Merger.NoCandidatesStep | src/main/java/uk/gov/nca/graph/merge/GraphMerger.java:81-84 | A rule with no candidate vertex is skipped: a `RuleStep` that changes nothing. |
| Merger.ApplyRule | src/main/java/uk/gov/nca/graph/merge/GraphMerger.java:70-101 | With no candidates, nothing changes. Otherwise, one commit per merged group, and `RuleStep` holds from the graph and merge map before to those after. `RuleStep` says the following. The vertex count falls by the merged vertices and rises by one per group, and each group has at least two members. Exactly the vertices not merged survive, unchanged. The merge map gains exactly the merged vertices and keeps its old entries. Each merged vertex maps to a new vertex with the rule's label, and two merged vertices share one iff their key tuples are equal. Each new vertex is the image of some merged vertex, and that image holds the accumulated properties of the merged vertices of its group, taken in some order (`FusedImages`). The edges are as `EdgesAfter` says: every edge touching no merged vertex is kept, unchanged; every other edge afterwards touches a new vertex; and the edge count rises by one per edge between two different merged vertices with equal key tuples and falls by one per self-loop on a merged vertex. |
| Merger.RuleLabels | src/main/java/uk/gov/nca/graph/merge/GraphMerger.java:70-101 | After a rule step the vertex count has not grown. Every vertex is an old one, unchanged, or a new one with the rule's label. |
| Merger.MergeAllGroups | src/main/java/uk/gov/nca/graph/merge/GraphMerger.java:101 | After the group loop, every group has been fused into its own fresh vertex carrying the label. That vertex holds the group's accumulated properties, in some member order, taken from the vertices as they were when the loop started. The vertices of the groups are gone, and every other vertex is unchanged. The merge map sends each member to its group's vertex. Every edge touching no member of any group is kept, unchanged, every other edge touches a new vertex, and the edge count rises by one per edge between two different members of one group and falls by one per member self-loop (`EdgesAfter`). The commit count rises by the number of groups. |
| Merger.FuseNextGroup | src/main/java/uk/gov/nca/graph/merge/GraphMerger.java:101 | One turn of the group loop. One commit, one more fused group, and the group-loop state (`GroupLoop`) holds with that group no longer to do. `GroupLoop` says: each fused group has a fresh vertex with the label and its members' accumulated properties, in some order; exactly the unfused vertices survive, unchanged; the merge map sends each fused member to its group's vertex; the vertex count is in step; the edges are as `EdgesAfter` says for the members fused so far. |
| Merger.GroupTurn | src/main/java/uk/gov/nca/graph/merge/GraphMerger.java:101 | Replacing an unfused group by one fresh vertex holding its members' accumulated properties, and sending its members there in the merge map, keeps `GroupLoop`. |
| Merger.GroupLoopStep | src/main/java/uk/gov/nca/graph/merge/GraphMerger.java:101 | When no group is left to fuse, `GroupLoop` gives one `RuleStep` from the graph the rule started with. |
| Merger.RuleEdgesStep | src/main/java/uk/gov/nca/graph/merge/GraphMerger.java:101 | When no group is left to fuse, the edges are as `EdgesAfter` says for all the merged vertices: kept when they touch none, touching a new vertex otherwise, and counted as above. |
| Merger.GroupLoopStart | src/main/java/uk/gov/nca/graph/merge/GraphMerger.java:101 | Before any group is fused, the group-loop state holds with every group to do and the graph as it was. |
| Merger.EdgesStep | src/main/java/uk/gov/nca/graph/merge/GraphMerger.java:101 | Fusing one more group, whose fusion keeps the edges missing it, leaves only edges kept or touching its new vertex and changes the count by its inside edges minus its self-loops, keeps `EdgesAfter` with that group's members added. |
| Merger.EdgesFuse | src/main/java/uk/gov/nca/graph/merge/GraphMerger.java:101 | The same step for vertex sets: a group all of one key joins fused vertices of other keys, and `EdgesAfter` carries over. |
| Merger.GroupKeysApart | src/main/java/uk/gov/nca/graph/merge/GraphMerger.java:87-101 | The members of one group share its key. The members of the other groups have different keys. |
| Merger.KeptStep | src/main/java/uk/gov/nca/graph/merge/GraphMerger.java:101 | Edges kept through two fusions in a row are kept through both. |
| Merger.FramedStep | src/main/java/uk/gov/nca/graph/merge/GraphMerger.java:101 | After one more fusion, every edge is kept from the start or touches a vertex created since. |
| Merger.GroupEdgesUntouched | src/main/java/uk/gov/nca/graph/merge/GraphMerger.java:101 | Fusing other groups leaves the inside edges and the self-loops of a group not yet fused as they were. |
| Merger.SameKeyEdgesAdd | src/main/java/uk/gov/nca/graph/merge/GraphMerger.java:101 | Adding a group all of one new key adds exactly its inside edges to the edges between same-key fused vertices. |
| Merger.MemberLoopsAdd | src/main/java/uk/gov/nca/graph/merge/GraphMerger.java:183-186 | The self-loops on two disjoint vertex sets add up. |
| Merger.CommitsStep | src/main/java/uk/gov/nca/graph/merge/GraphMerger.java:70-101 | One more rule adds the commits of its groups to `Commits`. |
| Merger.CommitsPrefix | src/main/java/uk/gov/nca/graph/merge/GraphMerger.java:70-101 | The commits of the first n rules depend only on the first n states. |
| FusionSpec.FusionFramesEdges | src/main/java/uk/gov/nca/graph/merge/GraphMerger.java:151-186 | After a fusion into the new vertex, every edge is an old edge missing the group, unchanged, or touches the new vertex. |
| Merger.RuleVerticesStep | src/main/java/uk/gov/nca/graph/merge/GraphMerger.java:101 | When no group is left to fuse, exactly the merged vertices are gone, the rest are unchanged, and the count falls by the merged vertices and rises by one per group. |
| Merger.RuleImagesStep | src/main/java/uk/gov/nca/graph/merge/GraphMerger.java:101 | When no group is left to fuse, each merged vertex maps to a new vertex with the rule's label, two merged vertices share one iff their key tuples are equal, and each new vertex is such an image. |
| Merger.MergeGroup | src/main/java/uk/gov/nca/graph/merge/GraphMerger.java:101 | One group, in some member order. Its members are replaced by one fresh vertex holding their accumulated properties. The edges come out as the fusion of the group describes: the edges missing the group are kept, every edge touching the group is re-created as `RedirectedCopies` and `SurvivorTags` say, and every edge afterwards is kept or touches the new vertex (`EdgesFramed`). The edge count changes by the inside edges minus the member self-loops. The merge map sends every member to the new vertex and keeps its other entries. |
| Merger.FusedImageValues | src/main/java/uk/gov/nca/graph/merge/GraphMerger.java:143-147 | After a rule step, the image of a merged vertex holds a value under a key iff some vertex of its group held that value under that key before the step. Fusion loses no value and invents none. |
| Merger.FusedPropsStep | src/main/java/uk/gov/nca/graph/merge/GraphMerger.java:101 | Fusing one more group records its vertex's properties: the accumulated properties of the group's members as they were when the rule started. Vertices fused for earlier groups are untouched. |
| Merger.RuleFusedProps | src/main/java/uk/gov/nca/graph/merge/GraphMerger.java:101 | Once every group is fused, the image of each merged vertex holds the accumulated properties of its group, in some member order. |
| FusionSpec.FusedPropsSame | src/main/java/uk/gov/nca/graph/merge/GraphMerger.java:143-147 | The fused properties depend only on the members' own properties. |
| Grouping.PropertyRules | src/main/java/uk/gov/nca/graph/merge/GraphMerger.java:62-65 | The kept rules are exactly the properties rules among those given, and there are no more of them than rules given. |
| Grouping.PropertyRulesAppend | src/main/java/uk/gov/nca/graph/merge/GraphMerger.java:62-65 | The filter distributes over concatenation, so it keeps the relative order of the rules it keeps. |
| Grouping.PropertyRulesAllOrNone | src/main/java/uk/gov/nca/graph/merge/GraphMerger.java:62-65 | A list made only of properties rules passes the filter whole. A list with none gives an empty list. |
| Grouping.CandidatesExactly | src/main/java/uk/gov/nca/graph/merge/GraphMerger.java:75-80 | The candidates are exactly the vertices that carry the rule's label and have every key. What that means for the tuple and the grouping is stated by `Grouping.CandidateTuple`, `Grouping.MergeSetsPartition` and `Merger.NoCandidatesStep`. |
| Grouping.FilteredMergeSets | src/main/java/uk/gov/nca/graph/merge/GraphMerger.java:92-95 | Keeps a group, unchanged, iff its tuple has a non-null entry and it has at least two members. It adds no group. |
| Grouping.CandidateTuple | src/main/java/uk/gov/nca/graph/merge/GraphMerger.java:75-80 | A candidate (right label, every key present) has a tuple whose i-th entry is the value of the i-th key. The tuple passes the non-null filter iff the rule names at least one key. |
| Grouping.MergeSetsPartition | src/main/java/uk/gov/nca/graph/merge/GraphMerger.java:87-88 | Grouping by tuple partitions the candidates. Each candidate is in the group of its own tuple, every group member is a candidate with that tuple, and no group is empty. |
| Grouping.MergeGroupsShape | src/main/java/uk/gov/nca/graph/merge/GraphMerger.java:87-95 | Every kept group holds candidates sharing the group's tuple. That tuple has a non-null entry, and the group has at least two members. No vertex is in two groups. |
| Grouping.MergedOnlyDuplicates | src/main/java/uk/gov/nca/graph/merge/GraphMerger.java:87-95 | A vertex that the rule merges is a candidate with a non-null tuple, and some other candidate has the same tuple. |
| Grouping.DuplicatesMerged | src/main/java/uk/gov/nca/graph/merge/GraphMerger.java:87-95 | Conversely, a candidate with a non-null tuple shared by another candidate is merged by the rule. |
| Grouping.MemberList | src/main/java/uk/gov/nca/graph/merge/GraphMerger.java:87-88 | Lists a group's members, each exactly once, in some order. |
| Fusion.MergeVertices | src/main/java/uk/gov/nca/graph/merge/GraphMerger.java:135-191 | An empty group changes nothing and yields no vertex. Otherwise there is one fresh vertex with the label and the members' accumulated properties. The members are gone, and the edges not touching them are kept. Each other edge touching the group that is not a member self-loop is re-created once, with every member end replaced by the new vertex. An edge between two different members yields one more such copy. The edge count is the old count plus the inside edges minus the member self-loops. The merge map gains every member, mapped to the new vertex. There is one commit. |
| Fusion.AbsorbAll | src/main/java/uk/gov/nca/graph/merge/GraphMerger.java:143-181 | The member loop: the new vertex ends with the members' properties copied in member order, and the merge map records each member. Every created edge is tracked back to the original edge it copies. |
| Fusion.AbsorbMember | src/main/java/uk/gov/nca/graph/merge/GraphMerger.java:144-176 | One member: its properties are copied onto the new vertex, and then its edges are copied. |
| Fusion.RedirectMemberEdges | src/main/java/uk/gov/nca/graph/merge/GraphMerger.java:149-176 | The in-pass runs, then the out-pass, which skips the edges the in-pass made. Vertices are unchanged, and every edge made is tracked. |
| Fusion.CopyInEdges | src/main/java/uk/gov/nca/graph/merge/GraphMerger.java:151-163 | Each edge into the member when the pass starts gets exactly one new edge. Its tail is resolved through the merge map and its head is the new vertex, with the same label and properties. Nothing else changes. |
| Fusion.CopyOutEdges | src/main/java/uk/gov/nca/graph/merge/GraphMerger.java:165-176 | Each edge out of the member when the pass starts, except those the in-pass made, gets exactly one new edge. Its tail is the new vertex and its head is resolved through the merge map, with the same label and properties. The recorded edge list grows by exactly these. |
| Fusion.CopyEdge | src/main/java/uk/gov/nca/graph/merge/GraphMerger.java:158-159 | Adds one edge with a fresh identity between the given ends. It has the found edge's label and exactly its properties. |
| FusionSpec.FusedKeepsValues | src/main/java/uk/gov/nca/graph/merge/GraphMerger.java:147 | Every value any member holds for a key is held by the fused vertex for that key. |
| FusionSpec.FusedOnlyMemberValues | src/main/java/uk/gov/nca/graph/merge/GraphMerger.java:147 | Every value the fused vertex holds for a key was held by some member for that key. |
| FusionSpec.FusedPrefix | src/main/java/uk/gov/nca/graph/merge/GraphMerger.java:143-147 | Values accumulate in member order. What the first j members contributed for a key stays in front, unchanged. |
| FusionSpec.FusedWellFormed | src/main/java/uk/gov/nca/graph/merge/GraphMerger.java:147 | The fused properties are well formed (no empty key, no repeated value) when the members' are. |
| FusionSpec.RedirectLive | src/main/java/uk/gov/nca/graph/merge/GraphMerger.java:156 | Because merge-map keys have left the graph, looking up a vertex still in the graph returns the vertex itself. |
| FusionSpec.FusionKeepsEdges | src/main/java/uk/gov/nca/graph/merge/GraphMerger.java:151-186 | A fusion whose new edges have fresh identities keeps every edge that touches no member, unchanged. |
| FusionSpec.FusionEdgeCount | src/main/java/uk/gov/nca/graph/merge/GraphMerger.java:151-186 | Counting edges after a fusion: the old count, plus one per edge between two different members, minus one per member self-loop. |
| Graphs.Graph.AddVertex | src/main/java/uk/gov/nca/graph/merge/GraphMerger.java:142 | A new vertex with a fresh identity, the label and no properties. Nothing else changes. |
| Graphs.Graph.AddEdge | src/main/java/uk/gov/nca/graph/merge/GraphMerger.java:158 | A new edge with a fresh identity, between two vertices of the graph, with no properties. Nothing else changes. |
| Graphs.Graph.CopyPropertiesToVertex | src/main/java/uk/gov/nca/graph/merge/GraphMerger.java:147 | The vertex's properties become the accumulating copy of the given ones onto its own. Nothing else changes. |
| Graphs.Graph.CopyPropertiesToEdge | src/main/java/uk/gov/nca/graph/merge/GraphMerger.java:159 | The edge's properties become the accumulating copy of the given ones onto its own. Nothing else changes. |
| Graphs.Graph.DropVertices | src/main/java/uk/gov/nca/graph/merge/GraphMerger.java:183-186 | Removes the given vertices and every edge touching one of them, and keeps everything else. |
| Graphs.Graph.Commit | src/main/java/uk/gov/nca/graph/merge/GraphMerger.java:188 | Counts one commit and changes nothing else. |
| ElementProperties.GetProperty | src/main/java/uk/gov/nca/graph/merge/rules/PropertiesMergeRule.java:42 | The lookup finds something iff the element has the key. What it finds is the key's list of values, which is empty when the key is absent. |
| ElementProperties.CopyProperties | src/main/java/uk/gov/nca/graph/merge/GraphMerger.java:147 | After a copy, the target has exactly the keys either side had. The values under each key are stated by the lemmas below. |
| ElementProperties.CopyHoldsExactly | src/main/java/uk/gov/nca/graph/merge/GraphMerger.java:147 | After a copy, a key holds exactly the values either side held for it. |
| ElementProperties.CopyKeepsPrefix | src/main/java/uk/gov/nca/graph/merge/GraphMerger.java:147 | A copy keeps, in front and unchanged, the values the target already held. |
| ElementProperties.CopyWellFormed | src/main/java/uk/gov/nca/graph/merge/GraphMerger.java:147 | Copying well-formed properties onto well-formed properties gives well-formed properties. |
| ElementProperties.CopyOntoEmpty | src/main/java/uk/gov/nca/graph/merge/GraphMerger.java:159 | Copying onto an element with no properties reproduces the properties exactly, as for a new edge. |
| ElementProperties.AddValuesFacts | src/main/java/uk/gov/nca/graph/merge/GraphMerger.java:147 | Adding values keeps the held values in front. The result holds exactly the held and incoming values, and it has no repeated value when the held values had none. |
| Rules.DefaultName | src/main/java/uk/gov/nca/graph/merge/rules/MergeRule.java:32-34 | The default rule name is `MergeRule[label=`, then the label, then `]`. |
| Rules.RuleName | src/main/java/uk/gov/nca/graph/merge/rules/PropertiesMergeRule.java:46-49 | A rule's own name, when it has one, wins. Otherwise a label rule reports a `MergeRule[label=` name from which its label reads back, and a properties rule reports a `PropertiesMergeRule[label=` name. |
| Rules.DefaultNameRoundTrip | src/main/java/uk/gov/nca/graph/merge/rules/MergeRule.java:32-34 | The label can be read back from the default name. |
| Rules.DefaultNameInjective | src/main/java/uk/gov/nca/graph/merge/rules/MergeRule.java:32-34 | Two default names are equal iff their labels are. |
| Rules.PropertiesDefaultName | src/main/java/uk/gov/nca/graph/merge/rules/PropertiesMergeRule.java:46-49 | The default properties-rule name is `PropertiesMergeRule[label=`, the label, `,properties=`, the key list as Java prints it, and `]`. |
| Rules.PropertiesNameOverrides | src/main/java/uk/gov/nca/graph/merge/rules/PropertiesMergeRule.java:46-49 | A properties rule without a name of its own reports the properties default. That name is never a MergeRule default name. |
| Rules.PropertiesDefaultNameAmbiguous | src/main/java/uk/gov/nca/graph/merge/rules/PropertiesMergeRule.java:46-49 | Two different key lists can print the same default name: one key `name, sameAs` against the two keys `name` and `sameAs`. |
| Rules.ListToString | src/main/java/uk/gov/nca/graph/merge/rules/PropertiesMergeRule.java:48 | Java's list printing: the result starts with `[` and ends with `]`. |
| Rules.KeyTupleOf | src/main/java/uk/gov/nca/graph/merge/rules/PropertiesMergeRule.java:40-44 | The key tuple has one entry per key, and the i-th entry is the lookup of the i-th key. |
| Rules.KeyTupleDependsOnlyOnKeys | src/main/java/uk/gov/nca/graph/merge/rules/PropertiesMergeRule.java:40-44 | Two elements have the same tuple iff they agree on every key the rule names. |
| Rules.AllKeysPresent | src/main/java/uk/gov/nca/graph/merge/rules/PropertiesMergeRule.java:40-44 | An element holding every key gets a tuple with no null entry. The tuple has a non-null entry iff there is at least one key. |

## Left out

- Classpath discovery of rules (`mergeGraphs(Graph)`, GraphMerger.java lines 112-133) and the command-line front end are not modelled. They load and instantiate classes, and the model takes the list of rules as given.
- Parallel streams are not modelled. The grouping, the group filter and the loop over the groups run sequentially, in an order the model leaves unspecified. Member order within a group and the order of the edges within a pass are also left unspecified. Every contract holds for every order.
- The TinkerPop graph store, traversals and transactions are not modelled. The graph is two maps with fresh identities, and a commit only bumps a ghost counter. Edge labels and vertex labels are plain strings. Property cardinalities and meta-properties are not modelled.
- `ElementUtils` and `GraphUtils` are not part of this model. `getProperty` is modelled as the key's list of values, or nothing when the key is absent. `copyProperties` is modelled as an accumulating copy that skips values the target already holds for the key.
- `MergePersonOnSameAs` and other concrete rules are not modelled. A rule is its label, its keys and an optional name of its own.
- Logging is not modelled. The rule names are modelled, but the merge never uses them; they only feed log lines.
- Merger.ApplyRule: of the edges, states which are kept, that every other edge touches a new vertex, and the edge count. Which original edge each re-created edge copies is stated once per group, by Merger.MergeGroup and Fusion.MergeVertices. It is not gathered again for a whole rule, because the groups of a rule are fused in an unspecified order and each fusion's fresh identities depend on that order.
- Merger.MergeGraphs: what the whole run does is given as a chain of rule steps, one per properties rule. It is not composed into one closed statement about the final graph, because the fresh identities depend on the order the groups are fused in.
- Merger.MergeAllGroups: of the edges, states which are kept, that every other edge touches a new vertex, and the edge count. Which original edge each copy reproduces is stated per group by Merger.MergeGroup.
- Graphs.Graph.Valid: the model requires every property of every element to hold at least one value and no value twice under one key. The Java code makes no such demand of the graph it is given. Property lists with repeated values are therefore not modelled. Copying an edge reproduces its properties exactly only under this assumption.
- Grouping.MemberList: `:|` picks the order, so the model does not capture the collector's actual order.
