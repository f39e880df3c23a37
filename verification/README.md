# Models of the diagram layouts, the model parsers and the query builder

Dafny models of four parts of the repository, with proofs about them:

* **Auto-layout** of decision diagrams (`scripts/dmn_add_di.py`) and of processes
  (`scripts/bpmn_add_di.py`): layering of graphs that may have cycles, coordinates, lanes,
  way points, and the diagram read back by the TypeScript reader.
* **The process parser** (`packages/js/sdk/src/bpmn/parser.ts`): the descent over nested
  scopes with its counter for made-up ids, hoisting of lanes and associations, and the passes
  that link default flows, boundary events and compensation handlers.
* **Boxed expressions** (`packages/js/sdk/src/dmn/parser.ts`): the twelve mutually recursive
  forms, decision tables and item definitions, with a printer as their inverse.
* **GraphQL selections and key case** (`packages/js/client/src/graphql/query-builder.ts`,
  `packages/js/client/src/graphql/graphql-client.ts`, `packages/js/sdk/src/graphql/model-fields.ts`):
  rendering, reading back by the GraphQL grammar, and the two key-case rewrites.

`dafny verify dfyconfig.toml` checks everything.

## How it is laid out

| files | content |
|---|---|
| `Collections`, `Xml`, `Numerals` | optional values, ordered dictionaries, a stable sort; element trees with their accessors; decimal numerals |
| `Chains`, `Kahn` | longest chains and cycles in directed graphs; the in-degree bookkeeping both layerings share |
| `DmnCollect`, `DmnLayers`, `DmnLayout`, `DmnDiagram` | the decision-diagram script, step by step, and the reader for what it writes |
| `DmnRequirements`, `DmnPicture` | what of a document becomes elements and edges, and where a row stands, without the script's own functions |
| `BpmnLayers`, `BpmnGeometry`, `BpmnLayout`, `BpmnLanes`, `BpmnExtract`, `BpmnProcess`, `BpmnFinished` | the process script; `BpmnProcess` holds the class with the fields `extract` fills and `layout` overwrites, `BpmnFinished` what is promised of a finished layout |
| `BpmnContent`, `BpmnMedian` | what of a process element is laid out, and what columns are ordered and centred by, without the script's own functions |
| `BpmnModel`, `BpmnHoist`, `BpmnParser`, `BpmnFacts`, `BpmnAutoIds`, `BpmnScopes`, `BpmnLinks` | the process parser; `BpmnParser` holds the class with the counter, the others what is proved of it |
| `BpmnSays` | what the parser reads off a single element, in tags, attributes and texts |
| `DmnWords`, `DmnExpr`, `DmnExprParser`, `DmnExprPrinter`, `DmnItems` | boxed expressions and item definitions |
| `DmnTables` | what every cell of a decision table says, whichever way its text is written |
| `KeyCase`, `CamelizeKeys`, `Selection`, `SelectionGrammar`, `SelectionLayout`, `FlowNodeSelection`, `ModelFields` | selections and key case |

Python sets are iterated in an arbitrary order: every method that walks one takes the order as
a parameter, and the results are proved not to depend on it where that is so. Coordinates are
reals and `int()` truncates toward zero. `JSON.parse` is a parameter that may fail. JavaScript
objects and Python dictionaries keep the order in which their keys came in.

Code with loops that push or overwrite is a method with that loop, proved equal to a function
or against a predicate; what is promised is then proved of that function or predicate.

Where the code and its own words differ, the model follows the code: the process script calls
its layering longest-path, which nodes that depend on a cycle cannot have and all others get on
every graph; the query builder indents by two spaces per level except below an include, where it
uses four; and it promises valid queries but writes an empty selection set when asked for nothing.

## Model

| member | source | states |
|---|---|---|
| Chains.UnboundedIffCycle | scripts/dmn_add_di.py:172-186 | An element is at the end of arbitrarily long dependency chains exactly when it depends on a cycle; within a finite set a chain longer than the set already shows it |
| Chains.LongestIffHasChain | scripts/dmn_add_di.py:151-188 | A number is the length of the longest chain exactly when a chain of that length exists and none one longer |
| Chains.LongestIffFree | scripts/dmn_add_di.py:172-186 | An element has a longest dependency chain exactly when it does not depend on a cycle |
| Kahn.Release | scripts/dmn_add_di.py:176-180 | Lowers each successor's count once per listed arc and frees, once each, exactly those that reach zero, whatever the multiplicity of the arcs |
| Kahn.LeftoversDependOnCycle | scripts/dmn_add_di.py:172-186 | Once no unfinished node has count zero, whatever is left unfinished depends on a cycle |
| Xml.FindElementMeans | packages/js/sdk/src/bpmn/parser.ts:107-118 | The element found is the first with the tag |
| Xml.TextOfElement | packages/js/sdk/src/bpmn/parser.ts:120-132 | The text of an element is the first text among its children, whatever elements stand before it, trimmed; without one it is empty |
| Xml.TextOfText | packages/js/sdk/src/bpmn/parser.ts:128-130 | A text stands for itself, trimmed |
| Xml.TrimMeans | packages/js/sdk/src/bpmn/parser.ts:120-132 | Trimming takes off white space at both ends, all of it, and nothing else |
| Xml.WhiteSpace | packages/js/sdk/src/bpmn/parser.ts:120-132 | White space is that of ECMAScript, by code point |
| DmnCollect.CollectElements | scripts/dmn_add_di.py:61-148 | The two collection passes fill the dictionary and the edge list as the two specification passes say: a later shape with the same id replaces the earlier one in place, requirements keep document order |
| DmnCollect.CollectShapes | scripts/dmn_add_di.py:66-124 | The first pass alone, over all five shape kinds and three requirement kinds |
| DmnCollect.FirstPassKeeps | scripts/dmn_add_di.py:66-124 | With distinct ids every shape ends with exactly the dependencies its own requirements name, and their edges are all there |
| DmnCollect.SecondPassOnlyRepeats | scripts/dmn_add_di.py:126-146 | With distinct ids the second pass over knowledge sources adds no new dependency and no new edge, only repeats |
| DmnCollect.FirstPassElements | scripts/dmn_add_di.py:66-124 | Of several shapes with one id the last is kept, with the dependencies its own requirements name |
| DmnCollect.FirstPassEdges | scripts/dmn_add_di.py:66-124 | The edges, in contrast, are those of every shape read, overwritten ones included, and no others |
| DmnCollect.SecondPassElements | scripts/dmn_add_di.py:126-146 | The second pass adds to an element exactly what knowledge sources with its id have as authority |
| DmnCollect.EdgesRead | scripts/dmn_add_di.py:61-148 | After both passes the edges are those of all shapes, overwritten ones included, and no others |
| DmnCollect.ElementsRead | scripts/dmn_add_di.py:61-148 | After both passes there is an element for every id of a shape, and every edge leads to one |
| DmnCollect.EdgesAreDependenciesIff | scripts/dmn_add_di.py:61-148 | After both passes every edge leads to a kept element from one of its dependencies if and only if each requirement of a shape is one of the last shape with its id too, or an authority of a knowledge source with its id |
| DmnCollect.DistinctEdgesAreDependencies | scripts/dmn_add_di.py:61-148 | With distinct ids this holds of every edge, after either pass |
| DmnRequirements.EdgesListed | scripts/dmn_add_di.py:66-124 | In terms of tags and attributes: one edge for every child, with a non-empty reference into the document, of an information, knowledge or authority requirement of a shape with an id, in document order; its id is the requirement's own, or made of both ends where that has none |
| DmnRequirements.EdgesWritten | scripts/dmn_add_di.py:61-148 | An edge is collected, after either pass, if and only if it is written somewhere in the document |
| DmnRequirements.ElementsWritten | scripts/dmn_add_di.py:61-148 | There is an element for every id of a shape, with the kind and the name of the last shape that has it; it depends on what that shape requires and on what knowledge sources with that id have as authority, and on nothing else |
| DmnLayers.CountDependencies | scripts/dmn_add_di.py:158-166 | In-degrees and dependents agree with the local dependencies, repeats counted, unknown ids dropped |
| DmnLayers.TopologicalLayers | scripts/dmn_add_di.py:151-188 | Terminates on every graph; an element that does not depend on a cycle gets the length of its longest dependency chain, all others share one layer strictly above every such element and directly above the highest |
| DmnLayers.GraphHasDependencies | scripts/dmn_add_di.py:162-166 | The graph has an arc for every dependency on a known element and no other |
| DmnLayers.LayeringUnique | scripts/dmn_add_di.py:160-186 | Two runs over one graph give the same layers, so the order sets are iterated in never shows |
| DmnLayers.LowerIffOutreached | scripts/dmn_add_di.py:160-186 | An element lies in a lower layer than another if and only if some dependency chain into the other is longer than every chain into it, whether or not an arc joins them |
| DmnLayers.RepeatsDoNotMatter | scripts/dmn_add_di.py:162-166 | Nor does it show how often a dependency is repeated |
| DmnLayout.ComputeLayout | scripts/dmn_add_di.py:191-234 | Every layered element is placed once, in the row of its layer counted from the top, at the rank of its id in that row, with the size of its kind; empty layers give no position |
| DmnLayout.PlacementUnique | scripts/dmn_add_di.py:197-234 | Layers and kinds determine every position |
| DmnLayout.SortedUnique | scripts/dmn_add_di.py:206-207 | A set of ids has one sorted order |
| DmnLayout.ShapesApart | scripts/dmn_add_di.py:209-232 | No two shapes overlap, on cyclic models too |
| DmnLayout.RisesIffLower | scripts/dmn_add_di.py:209-232 | Between any two shapes an edge ends at least 40 px above its start when it starts in the lower layer, and below its start otherwise |
| DmnLayout.EdgesRise | scripts/dmn_add_di.py:209-232 | Of a dependency, the bottom of the depending shape is at least 40 px above the top of the other if and only if the latter does not depend on a cycle |
| DmnPicture.RankCounts | scripts/dmn_add_di.py:206-207 | The place of an element in its row is the number of ids of its layer that come before its own, by code points |
| DmnPicture.PlacedSizes | scripts/dmn_add_di.py:209-232 | Input data are 180 by 45, decision services 200 by 100, all others 180 by 80; each layer stands 140 px above the one below, the highest at 100 px |
| DmnPicture.RowSpread | scripts/dmn_add_di.py:212-228 | A row goes on in steps of 240 px; a row that fits is in the middle of the width the layers ask for, any other begins at 100 px |
| DmnDiagram.GenerateEdges | scripts/dmn_add_di.py:255-288 | Draws each distinct edge with both ends placed once, from the top centre of the source to the bottom centre of the target |
| DmnDiagram.GenerateShapes | scripts/dmn_add_di.py:243-253 | One shape per position, in id order, with the bounds as decimal numerals |
| DmnDiagram.GenerateDmndi | scripts/dmn_add_di.py:237-293 | The whole element: all shapes by id, then the drawn edges |
| DmnDiagram.DrawnArePlaced | scripts/dmn_add_di.py:255-266 | The drawn edges are exactly the collected ones with both ends placed, without repeats |
| DmnDiagram.DrawnInFirstOccurrenceOrder | scripts/dmn_add_di.py:255-266 | They come in the order in which each is first collected |
| DmnDiagram.AddDiagram | scripts/dmn_add_di.py:322-345 | The pipeline from root element to diagram element: nothing without shapes, otherwise layers, positions and diagram of one run, for any set orders |
| DmnDiagram.DrawnRisesIff | scripts/dmn_add_di.py:209-288 | In every run, whatever ids repeat, a drawn edge ends at least 40 px above its start if and only if some dependency chain into its target is longer than every one into its source; otherwise it ends below its start |
| DmnDiagram.AllRiseIff | scripts/dmn_add_di.py:255-288 | In every run all drawn edges rise if and only if that condition holds of every collected edge between two elements |
| DmnDiagram.DocumentRisesIff | scripts/dmn_add_di.py:61-288 | For every document: all drawn edges rise if and only if each requirement of any of its shapes, overwritten or not, that names a shape of it leads to a chain longer than all chains into that shape |
| DmnDiagram.DrawnEdgesRise | scripts/dmn_add_di.py:255-288 | Where the collected edges are dependencies, the condition is that the source does not depend on a cycle |
| DmnDiagram.DistinctEdgesRise | scripts/dmn_add_di.py:61-288 | So it is for every drawn edge of every document with distinct ids |
| DmnDiagram.RepeatedEdgeFalls | scripts/dmn_add_di.py:70-124 | Overwriting a requirement can make an edge fall: a decision that requires another and is then read again without requirements leaves one drawn edge, in an acyclic model, that ends 80 px below its start in every run |
| DmnDiagram.RunsAgree | scripts/dmn_add_di.py:151-293 | A run is determined by what was collected, repeats aside: same layers, positions and diagram |
| DmnDiagram.SecondPassInvisible | scripts/dmn_add_di.py:126-146 | With distinct ids, leaving the second pass out changes neither layers, positions nor the diagram |
| DmnDiagram.ParseDmndi | packages/js/sdk/src/dmn/parser.ts:899-909 | Reads every diagram of the element in document order |
| DmnDiagram.ParseDmnDiagram | packages/js/sdk/src/dmn/parser.ts:911-930 | Reads shapes and edges of one diagram, each list in document order |
| DmnDiagram.ParseDmnEdge | packages/js/sdk/src/dmn/parser.ts:943-957 | Reads all way points in order; a missing element reference reads as empty |
| DmnDiagram.NumberOrZero | packages/js/sdk/src/dmn/parser.ts:975-982 | A coordinate is the number its attribute begins with, and 0 where the attribute is missing or begins with none |
| DmnDiagram.ShapeBounds | packages/js/sdk/src/dmn/parser.ts:932-966 | A shape has the bounds of its first such element; without one it is empty, at the origin |
| DmnDiagram.DiagramReadsBack | packages/js/sdk/src/dmn/parser.ts:899-982 | Reading generated shapes and edges gives back every position and every edge with both end points, in order, for every set of ids and positions |
| DmnDiagram.EdgeReadIsOne | packages/js/sdk/src/dmn/parser.ts:943-957 | The two way points of an edge that was read tell its source and its target: two placed edges that read alike are one |
| DmnDiagram.RunReadsBack | packages/js/sdk/src/dmn/parser.ts:899-982 | Reading what a run wrote gives one diagram: its shapes are the positions, by id; its edges are pairwise distinct and correspond one to one, in order, to the drawn requirements, each recovered with id, source and target |
| Numerals.DecimalReadsBack | packages/js/sdk/src/dmn/parser.ts:975-982 | The number reader recovers every whole number from its decimal numeral |
| Numerals.NumberReads | packages/js/sdk/src/dmn/parser.ts:975-982 | Past white space and a sign a number is read as its digits say, before and after a point, up to what does not go on with it; without digits there is none |
| Numerals.EveryTextBegins | packages/js/sdk/src/dmn/parser.ts:975-982 | Every text is of the form this speaks of |
| BpmnLayers.LiftEdges | scripts/bpmn_add_di.py:173-180 | Adjacency lists hold exactly the flows between main nodes after boundary sources are lifted to their hosts, in flow order |
| BpmnLayers.Visit | scripts/bpmn_add_di.py:194-201 | One pop relaxes every successor above the current node, lowers the counts and frees those that reach zero |
| BpmnLayers.Seeds | scripts/bpmn_add_di.py:183-188 | The queue starts with the nodes without predecessors, or else the start events, or else any one node |
| BpmnLayers.RunQueue | scripts/bpmn_add_di.py:190-201 | Terminates on every graph, since queue length plus nodes with positive count falls by one per pop; the seeds are popped first, in their order; where some node has no predecessor, no node is popped twice |
| BpmnLayers.LayerNodes | scripts/bpmn_add_di.py:182-205 | On every graph a node that does not depend on a cycle is visited and ends at its longest path, and each unvisited node gets a layer of its own strictly above all visited ones; where some node has no predecessor, only nodes that do not depend on a cycle are visited, each once; the visits begin with the nodes without predecessors, or where there are none with the start events |
| BpmnLayers.LiftUnvisited | scripts/bpmn_add_di.py:203-205 | Visited layers are kept; unvisited nodes get pairwise different layers above them |
| BpmnLayers.NaturalEnd | scripts/bpmn_add_di.py:194-201 | When the queue runs empty from its natural seeds, what was visited is free of cycles and sits at its longest path |
| BpmnLayers.AcyclicLayers | scripts/bpmn_add_di.py:182-205 | In an acyclic process every main node is visited exactly once and ends at the length of the longest path reaching it |
| BpmnLayers.AcyclicLayersUnique | scripts/bpmn_add_di.py:170-205 | For an acyclic process the layers do not depend on any iteration order |
| BpmnGeometry.FarApart | scripts/bpmn_add_di.py:340-346 | Boxes whose centres are far enough apart in one direction stay apart after truncation |
| BpmnGeometry.Sizes | scripts/bpmn_add_di.py:62-70 | Events are 36 px across, gateways 50, every other node 100 by 80 |
| BpmnGeometry.BoxAround | scripts/bpmn_add_di.py:340-346 | A box has its node's centre in its middle, to the pixel that truncation takes |
| BpmnProcess.Process.constructor | scripts/bpmn_add_di.py:122-129 | A process starts with no nodes, flows, data references, lanes or attachments |
| BpmnProcess.Process.Extract | scripts/bpmn_add_di.py:131-164 | Reading the children adds their nodes, flows, data references, lanes and attachments in document order; a later node with the same id replaces the earlier one, an attachment is never taken back |
| BpmnExtract.ReadLanes | scripts/bpmn_add_di.py:153-164 | The lanes of a lane set that have an id, in order |
| BpmnExtract.NodesAreRead | scripts/bpmn_add_di.py:136-140 | Of the flow nodes with one id the last is kept, at the origin; it is attached if any of them was, to the last host named |
| BpmnExtract.ReadIsSound | scripts/bpmn_add_di.py:131-164 | Whatever the ids, what was read is what the layout relies on: attachments are those of nodes of the process, data references have one of two sizes, and every node stands at the origin |
| BpmnExtract.EventsAttachedIff | scripts/bpmn_add_di.py:136-140 | All attached nodes are boundary events if and only if no attached boundary event gives way to a later node of another kind with its id |
| BpmnExtract.DistinctStay | scripts/bpmn_add_di.py:136-140 | With distinct ids none does |
| BpmnContent.NodesWritten | scripts/bpmn_add_di.py:131-140 | In terms of tags and attributes: the nodes are the events, activities and gateways with an id, of those with one id the last; a node is attached to the host last named by a boundary event with its id |
| BpmnContent.OrderWritten | scripts/bpmn_add_di.py:131-140 | Nodes, and attachments, are kept in the order in which each id first has one; giving an id again moves nothing |
| BpmnContent.RestWritten | scripts/bpmn_add_di.py:141-164 | Flows with both ends, data references with the size of their kind and lanes are read one for one and in order, where they have an id |
| BpmnProcess.Process.Spread | scripts/bpmn_add_di.py:217-224 | Members of a column stand evenly, 100 px apart, around a centre; every other node is unchanged |
| BpmnProcess.Process.PlaceColumn | scripts/bpmn_add_di.py:213-250 | A column is sorted by the median of placed predecessors, nodes with equal medians in the order of iteration, and spread around the mean of the medians, or around the base line in the first layer (what these are, `BpmnMedian` says) |
| BpmnProcess.Process.AssignCoordinates | scripts/bpmn_add_di.py:207-250 | All columns from left to right: each main node stands in the column of its layer |
| BpmnMedian.MedianIs | scripts/bpmn_add_di.py:227-232 | With k > 0 placed predecessors, counted with repeats, a node's key is the centre of one of them, at most k/2 of them are smaller and at most k - 1 - k/2 larger; with none it is the base line |
| BpmnMedian.MedianUnique | scripts/bpmn_add_di.py:227-232 | There is only one such value |
| BpmnMedian.FirstColumn | scripts/bpmn_add_di.py:213-224 | The first column stands evenly around the base line |
| BpmnMedian.ColumnByMedians | scripts/bpmn_add_di.py:225-250 | Every later column is in the order of such medians and stands evenly, 100 px apart, around their mean; a node alone stands at its own |
| BpmnProcess.Process.GroupByHost | scripts/bpmn_add_di.py:253-255 | Attached events grouped by host, in the order they came in |
| BpmnProcess.Process.HangBoundaryEvents | scripts/bpmn_add_di.py:253-266 | Every attached event whose host is a node of the process hangs at its share of the host's lower border; events of unknown hosts and all other nodes are unchanged |
| BpmnProcess.Process.PlaceDataRefs | scripts/bpmn_add_di.py:269-275 | Data references stand in a row 60 px below everything, 120 px apart |
| BpmnProcess.Process.ContentBoxes | scripts/bpmn_add_di.py:300-302 | The boxes of all nodes and data references |
| BpmnProcess.Process.SizeLanes | scripts/bpmn_add_di.py:278-298 | Lanes share the padded outline of the content in equal whole heights; one lane takes it all |
| BpmnProcess.Process.Layout | scripts/bpmn_add_di.py:166-298 | The whole layout for any iteration order: it raises exactly when there are nodes and all are attached boundary events, does nothing without nodes, and otherwise leaves a finished layout |
| BpmnProcess.Process.EmitShapes | scripts/bpmn_add_di.py:340-346 | One truncated box per node, in insertion order |
| BpmnProcess.Process.EmitEdges | scripts/bpmn_add_di.py:354-381 | One edge per flow with both ends known, with its way points |
| BpmnProcess.FlowsDrawn | scripts/bpmn_add_di.py:354-381 | These are the flows with both ends known, one for one and in order, each from where its source is left to where its target is entered |
| BpmnProcess.Process.PoolBounds | scripts/bpmn_add_di.py:304-316 | The pool is the tightest box around all lanes plus its 30 px header; without lanes, the padded content |
| BpmnFinished.FinishedApart | scripts/bpmn_add_di.py:166-298 | After a layout the boxes of nodes that do not share a host are apart, and data references are apart from every node and from one another |
| BpmnFinished.FinishedRunsRight | scripts/bpmn_add_di.py:354-380 | After the layout of an acyclic process every main node has been visited once and every drawn edge into a non-boundary node runs right by at least 60 px, boundary sources included |
| BpmnFinished.FinishedColumns | scripts/bpmn_add_di.py:207-250 | After a layout this holds of every later column, over the flows of the process with boundary sources lifted to their hosts |
| BpmnFinished.FinishedLanesCover | scripts/bpmn_add_di.py:277-316 | After a layout with 1 to 29 lanes, on whatever base line, every pixel of every node and data reference lies in some lane |
| BpmnFinished.LanesCoverIff | scripts/bpmn_add_di.py:277-298 | With any number of lanes and a base line at 62 px or more, as the 200 px and more of the script are, the lanes cover the content if and only if the lower padding makes up for what whole lane heights lose; when the outline is in whole numbers, if and only if its padded height divided by the number of lanes leaves at most 30; for up to 30 lanes always |
| BpmnFinished.ThirtyTwoLanesFallShort | scripts/bpmn_add_di.py:277-298 | Thirty-two lanes can fall short: around one column of a gateway, five tasks and an event, on the first base line, they end one pixel above the event |
| BpmnFinished.LayOut | scripts/bpmn_add_di.py:131-298 | Reading any process element and laying it out, for any iteration order: finished, nothing done, or raised; nodes attached to what the process does not have lie one on the other at the origin, and otherwise no two nodes with different anchors overlap |
| BpmnLayout.NoOverlap | scripts/bpmn_add_di.py:211-275 | After truncation no two emitted boxes overlap unless both nodes belong to one host; events of hosts that are attached themselves, and attached nodes of other kinds, are outside it |
| BpmnLayout.OrphanApart | scripts/bpmn_add_di.py:211-266 | A node left at the origin, its host being unknown, overlaps no node that has its place |
| BpmnLayout.NeighboursOverlap | scripts/bpmn_add_di.py:257-266 | The exception is real: an attached event overlaps its host, and neighbouring events of one host overlap each other |
| BpmnLayout.DataRefsApart | scripts/bpmn_add_di.py:268-275 | A data reference overlaps neither another one nor any node |
| BpmnLayout.EndsOnBorders | scripts/bpmn_add_di.py:354-368 | An edge leaves a boundary event in the middle of its lower border and any other node in the middle of its right one, and enters in the middle of the left one: exactly where the box has no negative side, to a pixel elsewhere |
| BpmnLayout.WayGoes | scripts/bpmn_add_di.py:370-381 | A way is straight where its ends are at most 10 px apart in height or 50 px sideways; otherwise it is level to the middle between them, upright there, and level again |
| BpmnLayout.EdgesRunRight | scripts/bpmn_add_di.py:354-380 | On every graph, each drawn edge into a non-boundary node whose source does not depend on a cycle runs right by at least 60 px, its bend strictly between its ends |
| BpmnLayout.AcyclicEdgesRunRight | scripts/bpmn_add_di.py:354-380 | In an acyclic process this holds of every drawn edge into a non-boundary node |
| BpmnLanes.LaneHeightBounds | scripts/bpmn_add_di.py:293-298 | All lanes together lose less than one pixel per lane against the outline |
| BpmnLanes.LanesMeet | scripts/bpmn_add_di.py:293-298 | Consecutive lanes leave no gap and overlap by at most one pixel; they meet exactly if and only if truncation does not cross zero at their border, in particular whenever the top is not negative |
| BpmnLanes.LanesApart | scripts/bpmn_add_di.py:293-298 | Where the top is not negative no two lanes overlap |
| BpmnLanes.LanesCover | scripts/bpmn_add_di.py:277-298 | Every pixel of content inside the outline that ends no lower than the last lane lies in some lane |
| BpmnLanes.LanesEndIff | scripts/bpmn_add_di.py:293-298 | The last lane reaches the last whole pixel of the content if and only if the height lost to whole lanes is at most the 30 px of lower padding and the fraction the content itself loses, or less than a pixel more where the last lane begins above the zero line |
| BpmnLanes.WholeOutlineReaches | scripts/bpmn_add_di.py:293-298 | On an outline in whole numbers this is a remainder of the padded height of at most 30 |
| BpmnLanes.ThirtyReach | scripts/bpmn_add_di.py:293-298 | Up to thirty lanes always reach |
| BpmnLanes.LaneSides | scripts/bpmn_add_di.py:277-298 | Lanes reach 50 px beyond the content on either side, and the first begins 30 px above it, to the pixel that truncation takes |
| BpmnHoist.CollectLanesDeep | packages/js/sdk/src/bpmn/parser.ts:1081-1094 | Appends the lanes below an element, each after the lanes inside it |
| BpmnHoist.CollectAssociationsDeep | packages/js/sdk/src/bpmn/parser.ts:1019-1036 | Appends the associations below an element in document order, not descending into an association |
| BpmnHoist.ParseLane | packages/js/sdk/src/bpmn/parser.ts:996-1009 | A lane's references are its own non-empty reference texts |
| BpmnHoist.WalkEqualsStream | packages/js/sdk/src/bpmn/parser.ts:1011-1036 | For every tree and any depth, a one-pass reader that appends a lane at its close tag and an association at its open tag, with the ends the attributes of that tag give, puts out exactly the hoisted lists |
| BpmnHoist.AssociationsSay | packages/js/sdk/src/bpmn/parser.ts:1019-1036 | The hoisted associations are one to one and in order with the association elements outside associations, each with the id, both ends and the direction its attributes give |
| BpmnParser.Parser.constructor | packages/js/sdk/src/bpmn/parser.ts:1126-1126 | The counter starts at zero |
| BpmnParser.Parser.ParseAssociation | packages/js/sdk/src/bpmn/parser.ts:1128-1139 | Takes one number whether or not the id is given, and uses it only where it is not |
| BpmnParser.Parser.ParseAssociations | packages/js/sdk/src/bpmn/parser.ts:507-512 | Input and output associations number themselves in document order from the counter |
| BpmnParser.Parser.ParseHead | packages/js/sdk/src/bpmn/parser.ts:477-500 | Incoming and outgoing references reversed and without empty ones; the last non-empty documentation counts |
| BpmnParser.Parser.ParseFlowNode | packages/js/sdk/src/bpmn/parser.ts:467-539 | A flow node as a function of its element and the counter, and how far the counter moves |
| BpmnParser.Parser.BuildTypeData | packages/js/sdk/src/bpmn/parser.ts:546-670 | The data of the kind, with the inner scope of a subprocess |
| BpmnParser.Parser.ReadScope | packages/js/sdk/src/bpmn/parser.ts:349-363 | Nodes, flows and default names of a scope, with the counter threaded through |
| BpmnParser.Parser.ParseScope | packages/js/sdk/src/bpmn/parser.ts:768-847 | The inner scope of a subprocess, linked among its own nodes and flows |
| BpmnParser.Parser.ApplyDefaultFlows | packages/js/sdk/src/bpmn/parser.ts:1210-1236 | Overwrites the default of gateways that can have one and marks the flows named, changing nothing else |
| BpmnParser.Parser.LinkBoundaryRefs | packages/js/sdk/src/bpmn/parser.ts:1238-1264 | Gives each node with attached events their ids, last first, and leaves the others alone |
| BpmnParser.Parser.GroupBoundaryEvents | packages/js/sdk/src/bpmn/parser.ts:1239-1252 | The grouping map agrees with attachment for every host |
| BpmnParser.Parser.HandlerMap | packages/js/sdk/src/bpmn/parser.ts:1049-1054 | The map from sources to targets, later associations overwriting earlier ones |
| BpmnParser.Parser.LinkCompensationHandlers | packages/js/sdk/src/bpmn/parser.ts:1044-1070 | Sets the handlers of boundary events at every depth from the associations |
| BpmnParser.Parser.ParseProcess | packages/js/sdk/src/bpmn/parser.ts:335-439 | The whole process, all passes in their order, as a function of the element and the counter |
| BpmnFacts.FlowNodesConserved | packages/js/sdk/src/bpmn/parser.ts:349-363 | The nodes of the model, flattened over all scopes, are one to one and in order with the flow-node elements that have only subprocesses between them and the process, and say what those say |
| BpmnSays.KindsAre | packages/js/sdk/src/bpmn/parser.ts:183-231 | Each kind of flow node is that of the element it is named after, subprocesses also of transactions and ad-hoc subprocesses; no other element is a flow node |
| BpmnSays.FlowElementsAre | packages/js/sdk/src/bpmn/parser.ts:183-206 | Whether an element is a flow node depends on its tag alone |
| BpmnSays.HeadSays | packages/js/sdk/src/bpmn/parser.ts:477-500 | The head of a flow node says what its attributes and children do: id, name, the incoming references in `incoming` and the outgoing ones in `outgoing`, compensation, and the last non-empty documentation |
| BpmnSays.ReferencesInReverse | packages/js/sdk/src/bpmn/parser.ts:480-493 | Incoming and outgoing references are exactly the non-empty ones of the document, in reverse order |
| BpmnSays.FlowSays | packages/js/sdk/src/bpmn/parser.ts:984-994 | A sequence flow leads from its `sourceRef` to its `targetRef`, under the text of its first condition |
| BpmnSays.AssociationsInReverse | packages/js/sdk/src/bpmn/parser.ts:507-539 | Input and output associations are the elements of their own direction, in reverse order, each with the texts of its source, target and transformation and with the id given, or one made up of its direction and number |
| BpmnFacts.CompensatedSameShape | packages/js/sdk/src/bpmn/parser.ts:1057-1070 | Linking handlers keeps every node and everything else in it, at any depth |
| BpmnFacts.LinkedSameShape | packages/js/sdk/src/bpmn/parser.ts:1210-1264 | Linking defaults and references keeps everything but those |
| BpmnAutoIds.StartShowsOnlyInIds | packages/js/sdk/src/bpmn/parser.ts:1126-1139 | Parsing one tree from two counter values gives models that differ by one uniform offset in the made-up ids and nowhere else |
| BpmnAutoIds.MadeUpIdsDistinct | packages/js/sdk/src/bpmn/parser.ts:1128-1139 | In one parse no made-up number is used twice, at any depth, and all lie in the range the counter moved through |
| BpmnModel.AutoIdsInjective | packages/js/sdk/src/bpmn/parser.ts:1131-1131 | Different prefixes or numbers make different id texts |
| BpmnScopes.DefaultsAreNames | packages/js/sdk/src/bpmn/parser.ts:356-361 | The map of defaults holds, for each id, the flow named by the last element with that id that names one |
| BpmnScopes.NamedWhenDistinct | packages/js/sdk/src/bpmn/parser.ts:1215-1228 | With distinct ids a flow is named exactly when some flow node directly in the scope has it as default |
| BpmnScopes.ScopeFaithful | packages/js/sdk/src/bpmn/parser.ts:768-893 | In a scope and all scopes inside it: nodes and flows stand for their elements in order and say what those say in tags, attributes and texts, data associations included; a flow is default exactly when its own scope names it, a gateway has the default last named under its id, references are exactly those attached |
| BpmnLinks.AttachedInReverse | packages/js/sdk/src/bpmn/parser.ts:1241-1252 | A host lists exactly the events attached to it, in reverse document order |
| BpmnLinks.RefsInvert | packages/js/sdk/src/bpmn/parser.ts:1238-1264 | With distinct ids, references and attachment are inverse: each event is listed once at each node it names as host and never elsewhere |
| BpmnLinks.LastAssociationHandles | packages/js/sdk/src/bpmn/parser.ts:1049-1054 | The handler of an id is the target of the last association with both ends that has it as source, none if there is no such association |
| BpmnLinks.OnlyHandlersChange | packages/js/sdk/src/bpmn/parser.ts:1057-1070 | With handlers left out, the pass changes nothing at any depth |
| BpmnLinks.ProcessHandlers | packages/js/sdk/src/bpmn/parser.ts:410-436 | In the finished process every boundary event at any depth has as handler the `targetRef` of the last association element of the document that has both ends and names it as `sourceRef`, none where there is no such element, and apart from handlers the model is that of the other passes alone |
| BpmnLinks.ProcessFaithful | packages/js/sdk/src/bpmn/parser.ts:335-439 | The finished process, handlers aside, is faithful to its element in every scope, and has its id and name and is executable unless it says that it is not |
| BpmnLinks.AttachedInDocument | packages/js/sdk/src/bpmn/parser.ts:1238-1264 | In every such scope a node is attached to a host exactly when its element is a boundary event that names that host |
| BpmnLinks.FaithfulInverts | packages/js/sdk/src/bpmn/parser.ts:1238-1264 | So in every such scope with distinct ids references invert attachment |
| DmnWords.HitPolicyReadsBack | packages/js/sdk/src/dmn/parser.ts:276-306 | Each hit policy is recovered from the word the DMN schema writes for it, blanks included |
| DmnWords.AggregationReadsBack | packages/js/sdk/src/dmn/parser.ts:308-317 | Each aggregation is recovered from its word |
| DmnWords.OrientationReadsBack | packages/js/sdk/src/dmn/parser.ts:319-337 | Each orientation is recovered from its word |
| DmnWords.HitPolicyIff | packages/js/sdk/src/dmn/parser.ts:276-306 | A policy is read exactly from its schema word or the first letter of that, trimmed, in any case, blanks or underscores between; from everything else, and from a missing attribute, `UNIQUE` |
| DmnWords.AggregationIff | packages/js/sdk/src/dmn/parser.ts:308-317 | An aggregation is read exactly from its word, trimmed and in any case |
| DmnWords.OrientationIff | packages/js/sdk/src/dmn/parser.ts:319-337 | An orientation likewise, with hyphens, underscores or blanks between the words; everything else is rule-as-row |
| DmnWords.SpecialLetters | packages/js/sdk/src/dmn/parser.ts:276-317 | The letters outside ASCII whose capitals are letters of ASCII are taken for those |
| DmnExpr.FormsAreBodies | packages/js/sdk/src/dmn/parser.ts:585-614 | Exactly twelve elements are expressions, and each of them always parses |
| DmnExprParser.ParseDecisionTable | packages/js/sdk/src/dmn/parser.ts:242-274 | Clauses and rules each in document order, attributes normalised |
| DmnExprParser.ParseRule | packages/js/sdk/src/dmn/parser.ts:412-452 | The description attribute decides, even an empty one; only without it the first description element does |
| DmnTables.TableSays | packages/js/sdk/src/dmn/parser.ts:242-475 | Every clause, rule and cell of a parsed table says what its element says, and there are no others: a non-empty text in the `text` child wins, otherwise the trimmed first text of the element itself counts, for descriptions, entries, annotations, expressions, values and defaults alike |
| DmnExprParser.ParseExpressionBody | packages/js/sdk/src/dmn/parser.ts:585-614 | What every element stands for, over all twelve forms |
| DmnExprParser.FirstExpressionBodyInChildren | packages/js/sdk/src/dmn/parser.ts:616-625 | Finds the first expression among the children without parsing the later ones |
| DmnExprParser.ParseSlot | packages/js/sdk/src/dmn/parser.ts:642-659 | Of a context entry or a binding the last item and the last expression count |
| DmnExprParser.ReadInvocation | packages/js/sdk/src/dmn/parser.ts:661-686 | Only the first expression can name the called function, and only if it has a text |
| DmnExprParser.ParseRelation | packages/js/sdk/src/dmn/parser.ts:724-750 | Columns and rows in order, each row with its expressions in order |
| DmnExprParser.ReadFunction | packages/js/sdk/src/dmn/parser.ts:557-573 | All formal parameters in order and the last expression as body |
| DmnExprParser.ReadBranches | packages/js/sdk/src/dmn/parser.ts:752-774 | Each branch is the first expression of the last such child, and an empty such child takes it away again |
| DmnExprParser.ReadIn | packages/js/sdk/src/dmn/parser.ts:776-857 | The same for the parts of filter, for, every and some |
| DmnExprParser.ParseDecisionExpression | packages/js/sdk/src/dmn/parser.ts:212-230 | Of a decision the last expression counts |
| DmnExprPrinter.RoundTrip | packages/js/sdk/src/dmn/parser.ts:557-857 | Printing a normal expression and parsing it gives it back, by induction over all forms |
| DmnExprPrinter.TableReadsBack | packages/js/sdk/src/dmn/parser.ts:242-274 | Printing a normal decision table and parsing it gives it back, every clause, rule and cell |
| DmnExprPrinter.BodyNormal | packages/js/sdk/src/dmn/parser.ts:585-614 | Every expression the parser produces is normal: texts trimmed, absent cells absent rather than empty, FEEL in capitals |
| DmnExprPrinter.ParsePrintParse | packages/js/sdk/src/dmn/parser.ts:585-857 | Parse, print, parse equals parse on every input tree |
| DmnExprPrinter.NormalIffProducible | packages/js/sdk/src/dmn/parser.ts:585-857 | The expressions the parser can produce are exactly the normal ones |
| DmnItems.ParseItemDefinition | packages/js/sdk/src/dmn/parser.ts:1029-1064 | The last type and the last allowed values count, an empty one taking the value away; components nest |
| DmnItems.RoundTrip | packages/js/sdk/src/dmn/parser.ts:1029-1072 | Printing a normal item definition and parsing it gives it back at any depth |
| DmnItems.ParsePrintParse | packages/js/sdk/src/dmn/parser.ts:1029-1072 | Parse, print, parse equals parse for every item definition element |
| DmnItems.CollectionIff | packages/js/sdk/src/dmn/parser.ts:1066-1072 | An item is a collection exactly when its attribute is `true` in any case, or `1`, white space around it aside |
| KeyCase.CamelUndoesSnake | packages/js/client/src/graphql/query-builder.ts:267-269 | Camel-casing undoes snake-casing if and only if no underscore stands before a small letter |
| KeyCase.SnakeUndoesCamel | packages/js/client/src/graphql/graphql-client.ts:557-557 | Snake-casing undoes camel-casing if and only if there is no capital |
| KeyCase.CamelInjective | packages/js/client/src/graphql/graphql-client.ts:557-557 | Two keys without capitals never meet under one camel-case key |
| CamelizeKeys.CamelizeKeysOf | packages/js/client/src/graphql/graphql-client.ts:554-578 | The result after all entries have been assigned in turn, later ones overwriting |
| CamelizeKeys.OpaqueKeys | packages/js/client/src/graphql/graphql-client.ts:533-552 | The keys whose values are left alone |
| CamelizeKeys.MergesIffCollide | packages/js/client/src/graphql/graphql-client.ts:554-578 | An entry is lost exactly when two keys have the same camel-case form; otherwise all entries are kept in order |
| CamelizeKeys.CollisionExists | packages/js/client/src/graphql/graphql-client.ts:554-578 | Keys with capitals can collide: of two such entries only the later value is left |
| CamelizeKeys.NothingLost | packages/js/client/src/graphql/graphql-client.ts:533-578 | Of a record whose keys are distinct and have no capitals, nothing is merged, dropped or reordered at any depth: every key is recovered by snake-casing; a string that begins with a brace or a bracket, white space aside, and that `JSON.parse` accepts becomes what it makes of it, under opaque keys too, and every other string stays; other opaque values stay, and lists and records keep their items |
| CamelizeKeys.Restores | packages/js/client/src/graphql/graphql-client.ts:533-578 | If moreover no string parses as JSON and no array stands directly in an array, snake-casing the keys of the result gives the record back whole |
| CamelizeKeys.ArrayInArray | packages/js/client/src/graphql/graphql-client.ts:565-568 | Every array directly in an array becomes a record under its indices, every item kept |
| Selection.RenderSelectionField | packages/js/client/src/graphql/query-builder.ts:164-200 | The lines of a field, fragments that select nothing left out, `__typename` where nothing would be selected |
| Selection.BuildSelectionSet | packages/js/client/src/graphql/query-builder.ts:130-154 | The lines of all fields and then of all includes |
| Selection.RenderInclude | packages/js/client/src/graphql/query-builder.ts:139-150 | The lines of one include, with the text of its arguments if it has any, its fields four spaces in |
| Selection.ArgumentsInserted | packages/js/client/src/graphql/query-builder.ts:139-150 | The arguments of an include stand in parentheses between its name and its brace and change nothing else |
| SelectionGrammar.OneReadsBack | packages/js/client/src/graphql/query-builder.ts:164-200 | The grammar reads a selection without empty braces back from its tokens and stops after it |
| SelectionGrammar.RenderedGives | packages/js/client/src/graphql/query-builder.ts:164-200 | The text of a rendered field has exactly the tokens of its normalised tree, whatever comes after it |
| SelectionGrammar.WrittenReadsBack | packages/js/client/src/graphql/query-builder.ts:130-200 | Reading a written selection set by the GraphQL grammar recovers the tree asked for, normalised, in order, and no pair of braces in it is empty |
| SelectionGrammar.ValidIffSomethingAsked | packages/js/client/src/graphql/query-builder.ts:130-157 | The written set is valid if and only if at least one field or include was asked for |
| SelectionLayout.RenderedLaid | packages/js/client/src/graphql/query-builder.ts:164-200 | In a rendered field braces balance and each line is indented by exactly two spaces per enclosing brace |
| SelectionLayout.LaidIffNoIncludes | packages/js/client/src/graphql/query-builder.ts:130-154 | A whole selection set keeps that rule if and only if nothing is included, with arguments or without |
| SelectionLayout.RestoresField | packages/js/client/src/graphql/query-builder.ts:164-200 | A field with nothing to drop or add is recovered, names included, from the tree read back |
| FlowNodeSelection.BuildFlowNodeSelection | packages/js/sdk/src/graphql/model-fields.ts:251-268 | The fragment record is filled from the non-empty table entries and then overwritten for subprocesses, level by level |
| FlowNodeSelection.OneLevelMore | packages/js/sdk/src/graphql/model-fields.ts:259-265 | One level more puts the level below into the subprocess fragment and changes nothing else |
| FlowNodeSelection.SizeLaw | packages/js/sdk/src/graphql/model-fields.ts:251-268 | Depth d costs d + 1 times depth 0, whatever a nested field or fragment costs |
| FlowNodeSelection.LineLaw | packages/js/client/src/graphql/query-builder.ts:164-200 | The rendered lines follow the same law at any indentation |
| FlowNodeSelection.NestsToDepth | packages/js/sdk/src/graphql/model-fields.ts:259-265 | The recursive field nests exactly as deep as asked |
| FlowNodeSelection.ModelNests | packages/js/sdk/src/graphql/model-fields.ts:280-298 | Under whatever other fields without nesting of their own, the tree of the process model nests to the depth asked for, and the flat index not at all |
| FlowNodeSelection.ModelGrows | packages/js/sdk/src/graphql/model-fields.ts:280-298 | Every level adds the weight of one flow node selection to the process model, at any cost of nesting |
| ModelFields.RowsSay | packages/js/sdk/src/graphql/model-fields.ts:116-237 | A type asks for both mappings, with source and target, where it has them, and for each of its names, in order, and for nothing else |
| ModelFields.TypesSound | packages/js/sdk/src/graphql/model-fields.ts:116-237 | The real table has distinct type names and fields for subprocesses |
| ModelFields.FlowNodeLaws | packages/js/sdk/src/graphql/model-fields.ts:251-268 | Both laws and the nesting for the selection really sent, from the real tables |
| ModelFields.BuildProcessModelSelection | packages/js/sdk/src/graphql/model-fields.ts:280-325 | The tree of nodes at the given depth, four if none is given, and the flat index at depth zero, among the other fields |
| ModelFields.ModelLaws | packages/js/sdk/src/graphql/model-fields.ts:280-325 | Of the selection really sent for a process model: selections and lines grow by one flow node selection per level, `flowNodes` nests exactly as deep as asked and `allFlowNodes` never |

## Left out

- XML text, escaping, entities, namespace injection and file handling: the models start from element trees, and the generators end in them.
- BpmnFinished.LayOut: does not say where attached nodes stand whose host is attached itself, nor that attached nodes of other kinds than boundary events, which only repeated ids make, keep apart from their host's neighbours.
- BpmnProcess.Process.HangBoundaryEvents: says nothing of where an event stands whose host is itself an attached event, which depends on the order hosts come up in.
- The names of processes, nodes and lanes, and the nodes a lane lists, in `scripts/bpmn_add_di.py`: nothing in the layout reads them.
- BpmnLayout.NoOverlap: does not cover boundary events hosted on other attached events, because such an event takes the place its host had at that moment, nor attached nodes of other kinds, which can be too high for the gap below their host.
- Stacking several processes in one file: tall layers can grow above the base line, so nothing separates them.
- The `type` of a collected requirement edge: nothing reads it.
- Numerals.DecimalReadsBack: the number reader is modelled without exponents and infinity, because the generators never write them.
- BpmnParser.Parser.ParseFlowNode: leaves out loop characteristics and extension elements, because each is a record of its own element.
- BpmnParser.Parser.BuildTypeData: leaves out event definitions and task-specific fields, for the same reason.
- BpmnParser.Parser.ParseScope: leaves out the data objects and ad-hoc fields of a subprocess.
- BpmnParser.Parser.ParseProcess: leaves out data objects, data stores and extensions of a process.
- Extension elements, task-specific fields, event definitions, loop characteristics, data objects and data stores of the process parser: many fields, each settled by one line.
- Shared objects: nodes and reference lists are values, so two nodes with one id, which share one reference list in the source, hold equal lists here.
- Decisions, business knowledge models, decision services, imports and requirements of the DMN model beyond a decision's expression: flat records.
- Upper and lower case outside the characters that can turn into a word compared against.
- SelectionGrammar.WrittenReadsBack: speaks of includes without filter and sort, because strings in those are written without escaping and cannot be read back in general.
- SelectionGrammar.ValidIffSomethingAsked: likewise.
- How filter and sort of an include are written as text: `Selection` takes that text as it is.
- The rest of the query text, its variables and its page fields: fixed strings.
- HTTP, tokens, page information, error mapping and the engine itself.
