# Story-tree search, modelled in Dafny

The system grows a story as a tree of events and searches it with Monte Carlo
Tree Search. Each iteration does four things:

- It **selects** a path from the root, going to the child with the greatest UCB1 value while the current node already has its full share of children.
- It **expands** the leaf with one event generated by a language model.
- It **simulates**: it scores the recent chain plus a short rollout.
- It **backpropagates**: one visit and the score are credited to every node of the selected path.

The finished tree is ranked by path score: the mean of the node averages.

The search exists twice. It runs in TypeScript over the events diagram's
model (`src/mcts.ts`) and in Python over a directed graph
(`wnu25/experiments/eventgraph.py`). This project models both, each following
its source's branches and error cases, and keeping the constants the
search depends on (keys 1000 and -1000, the score clamp 1..10, the
fallback score 5, the rollout depth). The prompt wording and the UCB1
formula are abstracted, and the App handlers exclude writes past the end
of an array; the "Left out" section lists each of these.

Around the search it models:

- **Diagram key allocators.** Event node keys count up from 1000 and event link keys count down from -1000. Entity keys start at 1 and -1.
- **Event insertion.** Forward and backward insertion in the events diagram, and the link validation of the entities diagram.
- **Prompt assembly and score parsing** in `src/utils.ts`.
- **The application state.** The keyed-array and index-map synchroniser of `src/App.tsx`.
- **The evaluation scripts.** `run_evaluation.py` gives the top-n paths, the multi-branch baseline chain and per-strategy aggregation. `lexical_diversity_evaluation.py` gives raw-text extraction, the n-gram diversity ratio, the baseline path and result collection by run index.

External services are inputs, not code:

- **The language model** is a function from a prompt to a reply or a thrown error. Where a loop calls it repeatedly, it is a function of the call number.
- **UCB1** needs `log` and `sqrt`, so it is an abstract real function of (average, parent visits, child visits).

Modules (one file each):

| module | file | models |
|---|---|---|
| `Wrappers` | wrappers.dfy | `Option`, and `Outcome`: a value or a thrown error |
| `Text` | text.dfy | joining, "- t" bullets, splitting, Python `strip`, the ASCII filter |
| `KeyAlloc` | key_alloc.dfy | the up-counting and down-counting key functions |
| `EventsDiagram` | events_diagram.dfy | the events model (nodes, links, guesses) and forward/backward insertion |
| `EntitiesDiagram` | entities_diagram.dfy | the entities model, its allocators and link validation |
| `Argmax`, `Ranking` | argmax.dfy, ranking.dfy | first-maximum selection, means, the stable descending sort |
| `Utils` | utils.dfy | next/previous-event prompts, `parseInt` and the 1..10 clamp, the judge average and fallbacks |
| `Mcts` | mcts.dfy | `runMcts` and its phases, path enumeration, path score and ranking |
| `EventGraphPy` | event_graph.dfy | the Python `EventGraph` class and its search |
| `AppStore` | app.dfy | `refreshNodeIndex`, `handleModelChangeBase`, `handleEventNodeRemoved`, the entity-graph description |
| `RunEvaluation` | run_evaluation.dfy | `get_top_n_paths`, `generate_multibranch_chain`, the aggregate scores |
| `LexicalDiversity` | lexical_diversity.dfy | `extract_raw_text`, `compute_ngram_diversity`, `generate_baseline_path`, result slots |

State that the source updates in place is modelled with classes whose methods
carry `modifies` clauses and state the whole new state. That covers the
diagram models, the Python graph and the application store. Each such method
is tied to a specification function, and the properties the source promises
are proved about that function.

## Model

| member | source | states |
|---|---|---|
| Mcts.ParentVisits | src/mcts.ts:77 | The parent's visit count used by UCB1 is never below 1, and is the node's own count whenever it has visits. |
| Mcts.ChildValues | src/mcts.ts:79-90 | One value per child. A child without node data has no value (it is skipped). Any other child is scored by UCB1 on its average, the parent's visits and its own visits. |
| Mcts.ScanChildren | src/mcts.ts:75-97 | The scan over the children returns exactly the best child: the first child whose UCB1 value is strictly the largest, or none when no child has data. |
| Mcts.Select | src/mcts.ts:59-104 | The path starts at the start key. Every step goes from a present, fully expanded node to its best child. The last node is one where selection stops: missing, fewer than `maxChildren` children, no scorable child, or a negative best key. |
| Mcts.DescendsToChild | src/mcts.ts:67-100 | A selection step always goes to a child that exists and sits strictly deeper than its parent, so the loop ends. |
| Mcts.DescentClimbs | src/mcts.ts:59-104 | Along a selected path every later node is strictly deeper than the start. |
| Mcts.StartOccursOnce | src/mcts.ts:27-56 | The start key occurs exactly once in a selected path, so backpropagation credits the root exactly once. Every node of a path longer than one exists. |
| Mcts.PathTexts | src/mcts.ts:33 | One text per path key, with "(missing)" for a key without node data. |
| Mcts.MaybeExpand | src/mcts.ts:106-153 | With no node data, or with at least `maxChildren` children, nothing changes and the leaf key is returned. A thrown generation changes nothing. Otherwise one fresh node is added with the generated text and severity, the leaf's location, parent the leaf and zero statistics. A "leads to" link from the leaf with the likelihood-derived probability and a fresh key is appended, and the new key is returned. |
| Mcts.RecentChain | src/mcts.ts:240-249 | At most `steps` texts (none for a non-positive count). For a present node and a positive count, the chain ends with the node's own text. |
| Mcts.RecentChainIsAncestrySuffix | src/mcts.ts:240-249 | The recent chain is the last `steps` entries of the node's root-first ancestry through tree parents. |
| Mcts.GetRecentChain | src/mcts.ts:240-249 | The unshifting loop computes exactly the recent chain. |
| Mcts.Rollout | src/mcts.ts:168-187 | A successful rollout holds at most `rolloutDepth` events, and none of them is empty. |
| Mcts.RunRollout | src/mcts.ts:168-187 | The loop produces exactly the rollout: it stops at the first empty reply, and a thrown generation propagates. |
| Mcts.Simulate | src/mcts.ts:155-202 | A missing node scores 0. Otherwise a thrown rollout propagates, and a finished rollout is scored on the bulleted chain plus rollout text. A successful score for a present node lies in 1..10. |
| Mcts.Credit | src/mcts.ts:204-219 | Backpropagation keeps the set of node keys. |
| Mcts.CreditCounts | src/mcts.ts:204-219 | Each node gains one visit and `score` of total for every occurrence of its key in the path. Nothing else about the node changes, and a node off the path is untouched. |
| Mcts.Backpropagate | src/mcts.ts:204-219 | On any graded model, dangling links included, the loop leaves the nodes as `Credit` of the old nodes (a missing key is skipped and stays missing), and the links and model data unchanged. |
| Mcts.IterationCredit | src/mcts.ts:27-56 | After one iteration's credit, no old node loses visits and a node added during the iteration has none. The root gains exactly one visit. |
| Mcts.StaleLinkClosesCycle | src/mcts.ts:59-153 | A stale link from a missing key back to a leaf joins the tree when expansion reuses that key, and then the two nodes are each other's only child. |
| Mcts.Iterate | src/mcts.ts:27-56 | One iteration adds at most one node, only appends links, and never lowers a visit count. New nodes have no visits. The root gains exactly one visit if the iteration completes, and none if it throws. |
| Mcts.SimulateAndBackpropagate | src/mcts.ts:44-53 | On any graded model, dangling links included, scoring then backpropagation keeps the links and the key set. On completion the root gains exactly one visit; a throw changes nothing. |
| Mcts.RunMcts | src/mcts.ts:18-57 | Without a throw, all iterations complete; a throw stops the loop early. The root's visits rise by exactly the number of completed iterations. Nodes are only added, links only appended, and visits never drop. |
| Mcts.ChildIsDeeper | src/mcts.ts:226-231 | Every child of a node exists and is strictly deeper, so the recursive path enumeration ends. |
| Mcts.AllPaths | src/mcts.ts:251-264 | At least one path, and every path is a leaf path from the given key that follows links. |
| Mcts.PathsVia | src/mcts.ts:256-262 | Paths through a non-empty list of children are at least one, and each is a leaf path from the parent. |
| Mcts.AllPathsComplete | src/mcts.ts:251-264 | Every leaf path from the key (following links to a childless node) is among the listed paths. |
| Mcts.PathsViaComplete | src/mcts.ts:256-262 | Every leaf path from the parent whose second node is one of the given children is among the paths through them. |
| Mcts.LeafPathStart | src/mcts.ts:253-262 | A leaf path is the key alone exactly when the key has no children, and otherwise its second node is a child. |
| Mcts.ExtendLeafPath | src/mcts.ts:259-261 | Putting the parent in front of a child's leaf path gives a leaf path of the parent. |
| Mcts.PathAverages | src/mcts.ts:267-273 | One average per path node: the total over the visits when visited, 0 when unvisited or missing. |
| Mcts.PathScore | src/mcts.ts:266-275 | No score exactly for the empty path (0/0 in the source). Otherwise the mean of the node averages. |
| Mcts.PathScoreBounds | src/mcts.ts:266-275 | The path score lies between any lower and upper bounds of its node averages. |
| Mcts.ScoreAll | src/mcts.ts:279-282 | One scored entry per path, carrying the path and its score. |
| Mcts.RankedPaths | src/mcts.ts:277-283 | The ranked list is sorted by descending score and is a permutation of the scored paths from the root. |
| Argmax.FirstMaxIndex | src/mcts.ts:75-95 | No index exactly when no entry has a value. Otherwise the index holds a value that no entry exceeds and that every earlier entry is strictly below: the first maximum, as the strict `>` scan keeps it. |
| Argmax.FirstMaxIndexExtend | wnu25/experiments/eventgraph.py:318-334 | One more scanned entry replaces the best so far exactly when it has a value strictly greater than the best's (or no best exists yet). |
| Ranking.MeanBounds | wnu25/experiments/eventgraph.py:501-510 | The mean of a non-empty list of averages lies between any lower and upper bounds of its entries. |
| Ranking.Insert | src/mcts.ts:283 | Inserting one entry into a list adds exactly that entry (a permutation of list plus entry). |
| Ranking.SortDesc | wnu25/experiments/eventgraph.py:553 | The descending sort is a permutation of its input. |
| Ranking.InsertSorted | src/mcts.ts:283 | Insertion into a descending list keeps it descending, and a new entry goes in front only if strictly greater, so ties keep their order. |
| Ranking.SortDescSorted | wnu25/experiments/eventgraph.py:553 | The sort's result is in descending order of its key. |
| Ranking.SortDescHead | wnu25/experiments/eventgraph.py:553-554 | Being stable, the sort puts first the first entry with the largest key. |
| Text.Bullets | wnu25/experiments/eventgraph.py:122 | One line per text, each the text with "- " in front. |
| Text.JoinAppend | src/mcts.ts:190-193 | Joining two non-empty lists is joining each and putting the separator between them. |
| Text.SplitOn | wnu25/experiments/lexical_diversity_evaluation.py:94 | Splitting yields at least one piece, and no piece contains the separator. |
| Text.SplitJoin | wnu25/experiments/lexical_diversity_evaluation.py:94-99 | Splitting the join of separator-free pieces gives the pieces back. |
| Text.LeadingSpaces | wnu25/experiments/lexical_diversity_evaluation.py:95 | The count covers exactly the run of whitespace at the start of the text. |
| Text.TrailingSpaces | wnu25/experiments/lexical_diversity_evaluation.py:95 | The count covers exactly the run of whitespace at the end of the text. |
| Text.StripIsTrimmedSlice | wnu25/experiments/lexical_diversity_evaluation.py:95 | A stripped text is the slice after the leading whitespace. It is empty exactly when the text is all whitespace, and otherwise starts and ends with non-whitespace. |
| Text.AsciiOnly | wnu25/experiments/lexical_diversity_evaluation.py:102 | The result holds exactly the ASCII characters of the text, and only those. |
| KeyAlloc.SmallestFreeFrom | src/components/events/EventsDiagramWrapper.tsx:96-98 | The key is the smallest unused key at or above the start. |
| KeyAlloc.LargestFreeFrom | src/components/events/EventsDiagramWrapper.tsx:102-104 | The key is the largest unused key at or below the start. |
| KeyAlloc.KeyOr | src/components/events/EventsDiagramWrapper.tsx:96 | A requested key is kept unless it is missing or 0 (JavaScript `||`), in which case the default is used. |
| KeyAlloc.AllocateUp | src/components/events/EventsDiagramWrapper.tsx:95-100 | The node key allocator returns and stores in the data the smallest unused key from the requested key, or from the default. |
| KeyAlloc.AllocateDown | src/components/events/EventsDiagramWrapper.tsx:101-106 | The link key allocator returns and stores in the data the largest unused key from the requested key, or from the default. |
| EventsDiagram.ChildrenIn | src/mcts.ts:226-231 | Every child of a key is the target of a link from it, every such target is a child, and there are no more children than links. |
| EventsDiagram.OutLinkPositions | src/mcts.ts:226-231 | The positions, from a start position on, of exactly the links leaving a key, each once, in increasing order. |
| EventsDiagram.ChildrenInLinkOrder | src/mcts.ts:226-231 | From any start position (0 for all links), the i-th child is the target of the i-th link leaving the key, so the children follow the links' order and multiplicity. |
| EventsDiagram.TreeParentIn | src/components/events/EventsDiagramWrapper.tsx:361 | A tree parent, when there is one, is a present node with a link into the node. |
| EventsDiagram.ArrayOverFive | src/components/events/EventsDiagramWrapper.tsx:391 | The likelihood list divided by 5 the way JavaScript coerces an array: empty gives 0, one entry gives that entry over 5, and more entries give no number (NaN). |
| EventsDiagram.EventsModel.constructor | src/components/events/EventsDiagramWrapper.tsx:93-107 | A fresh model has no nodes and no links, keeps its model data and satisfies the invariant. |
| EventsDiagram.EventsModel.MakeUniqueKey | src/components/events/EventsDiagramWrapper.tsx:95-100 | The node key allocator returns and stores the smallest key not in use, counting up from the requested key or 1000. |
| EventsDiagram.EventsModel.MakeUniqueLinkKey | src/components/events/EventsDiagramWrapper.tsx:101-106 | The link key allocator returns and stores the largest link key not in use, counting down from the requested key or -1000. |
| EventsDiagram.EventsModel.AddNodeData | src/components/events/EventsDiagramWrapper.tsx:385 | Adding node data under a fresh key puts exactly that node in and changes nothing else. |
| EventsDiagram.EventsModel.AddLinkData | src/components/events/EventsDiagramWrapper.tsx:387-392 | Adding a link appends exactly one link under the largest unused key at or below -1000, and leaves the nodes alone. |
| EventsDiagram.EventsModel.SetNodeData | src/components/events/EventsDiagramWrapper.tsx:371-375 | Setting a node's data replaces that node only. |
| EventsDiagram.EventsModel.Ancestry | src/components/events/EventsDiagramWrapper.tsx:357-363 | The root-first chain of tree-parent texts ends with the node's own text and is finite. |
| EventsDiagram.EventsModel.AncestryTexts | src/components/events/EventsDiagramWrapper.tsx:357-363 | The climbing loop followed by the reversal computes exactly the ancestry. |
| EventsDiagram.EventsModel.AddNodeAndLink | src/components/events/EventsDiagramWrapper.tsx:350-403 | A thrown generation changes nothing. Otherwise the clicked node's forward guesses gain the reply, and a fresh node (smallest free key from 1000) gets the reply's text and severity, the new location, the clicked node as parent and empty guess lists. One "leads to" link from the clicked node to it is appended, with probability the likelihood over 5 and a fresh key. |
| EventsDiagram.EventsModel.AddNodeAndLinkBackwards | src/components/events/EventsDiagramWrapper.tsx:405-450 | A thrown generation changes nothing. Otherwise the clicked node's backward guesses gain the reply, and a fresh node is added with the clicked node as child. One "leads to" link from the new node into the clicked node is appended with a fresh key. |
| EventsDiagram.LinkRaisesDepth | src/mcts.ts:226-231 | Every link between present nodes goes strictly deeper, so the events graph has no cycle. |
| EventsDiagram.Reversed | src/components/events/EventsDiagramWrapper.tsx:363 | The reversal holds the same entries in opposite order. |
| EventsDiagram.ReverseInPlace | src/components/events/EventsDiagramWrapper.tsx:363 | The in-place reversal computes the reversal. |
| EntitiesDiagram.LinkKeys | src/components/entities/EntitiesDiagramWrapper.tsx:51-56 | The set of link keys in use is exactly the keys of the links. |
| EntitiesDiagram.LinkValidation | src/components/entities/EntitiesDiagramWrapper.tsx:65-69 | Every link the user draws is accepted. |
| EntitiesDiagram.EntitiesModel.constructor | src/components/entities/EntitiesDiagramWrapper.tsx:40-58 | A fresh model holds the given nodes, no links, and satisfies the invariant. |
| EntitiesDiagram.EntitiesModel.MakeUniqueKey | src/components/entities/EntitiesDiagramWrapper.tsx:45-50 | The entity key allocator returns and stores the smallest unused key, counting up from the requested key or 1. |
| EntitiesDiagram.EntitiesModel.MakeUniqueLinkKey | src/components/entities/EntitiesDiagramWrapper.tsx:51-56 | The relationship key allocator returns and stores the largest unused key, counting down from the requested key or -1. |
| EntitiesDiagram.EntitiesModel.AddClickedNode | src/components/entities/EntitiesDiagramWrapper.tsx:42-50 | A click adds one "new node" entity coloured light blue, under the smallest unused key from 1. |
| EntitiesDiagram.EntitiesModel.AddDrawnLink | src/components/entities/EntitiesDiagramWrapper.tsx:51-71 | A drawn link is always accepted and appended once as a "relationship", under the largest unused key from -1. |
| Utils.LevelLabel | src/utils.ts:65-75 | The label is always one of the five level names. It is the level the scale's first entry selects (1..5), and "medium" exactly when nothing is selected or the level is 3. |
| Utils.ContextSection | src/utils.ts:58-91 | Instructions then the story-context header, followed by "(No prior events)" without parents, or by the "so far" header and the bulleted parents. |
| Utils.EntitySection | src/utils.ts:93-95 | The entity-graph section is empty exactly when there is no description or the entity graph is not included. |
| Utils.UserSection | src/utils.ts:97-99 | The user-context section is empty exactly when there is no event prompt. |
| Utils.GuessesSection | src/utils.ts:101-103 | The guesses section is empty exactly when there are no forward guesses. Otherwise it is the header followed by the bulleted guesses. |
| Utils.NextPromptFrame | src/utils.ts:77-105 | Every next-event prompt begins with the instructions and context header and ends with the closing request. |
| Utils.NextEventPrompt | src/utils.ts:60-105 | The step-by-step assembly builds exactly the next-event prompt. |
| Utils.ShapeNextEvent | src/utils.ts:118-122 | The reply's text is kept. The likelihood and severity are the model data's lists, or [3] when missing. |
| Utils.GenerateNextEvent | src/utils.ts:46-123 | A thrown call propagates. Otherwise the result is the shaped reply to the next-event prompt. |
| Utils.PreviousLabel | src/utils.ts:129-130 | The first entry's level name when it is in 1..5, otherwise "undefined" as JavaScript prints it. |
| Utils.GeneratePreviousEvent | src/utils.ts:125-156 | Succeeds exactly when the data needed for the prompt is present and the call succeeds. The result then carries the reply text and the model data's likelihood and severity. |
| Utils.JsLeadingSpaces | src/utils.ts:293 | The count covers exactly the whitespace `parseInt` skips at the start. |
| Utils.DigitRun | src/utils.ts:293 | The count covers exactly the run of decimal digits at the start. |
| Utils.DigitsValueOfDecimal | src/utils.ts:293 | Reading back the decimal spelling of a number gives the number. |
| Utils.LeadingNumberOfDecimal | src/utils.ts:293 | A decimal number followed by a non-digit reads as that number. |
| Utils.ParseIntReadsUnsigned | src/utils.ts:292-293 | `parseInt(_, 10)` of a decimal followed by a non-digit yields that number. |
| Utils.ParseIntNegated | src/utils.ts:292-293 | A minus sign in front of text that `parseInt` reads as a number yields its negation. |
| Utils.ParseIntReadsDecimal | src/utils.ts:292-293 | `parseInt(_, 10)` of an optionally signed decimal followed by a non-digit yields that signed value. |
| Utils.ScoreEventWithOpenAI | src/utils.ts:291-309 | The score is always in 1..10. It is 5 when the call throws, and otherwise the parsed reply when that is a number in 1..10, else 5. |
| Utils.ScoreReadsLeadingNumber | src/utils.ts:291-305 | A reply that starts with a number in 1..10 scores exactly that number. |
| Utils.JudgeNarrative | src/utils.ts:443-478 | A thrown call gives all-fives with "Error calling OpenAI". An unparsable reply gives all-fives with a "Could not parse JSON." comment. Otherwise the parsed reply is returned. |
| Utils.RoundSevenths | src/utils.ts:340-341 | `Math.round(sum / 7)`: the result is within half of sum/7, with halves rounded up. |
| Utils.ScoreEventWithJudge | src/utils.ts:312-353 | With no judgement the score is 5. With a missing category it is NaN (None). Otherwise it is the rounded mean of the seven categories. |
| Utils.JudgeScoreInRange | src/utils.ts:332-341 | Seven categories present and in 1..10 give a score (not NaN) in 1..10, and the all-fives fallback scores 5. |
| EventsDiagram.BackwardNeedsGuessList | src/utils.ts:142 | A node without a backward-guess list makes the previous-event generation throw, so no backward insertion happens. |
| EventGraphPy.Successors | wnu25/experiments/eventgraph.py:77-78 | The successors of a node are exactly the targets of its edges. |
| EventGraphPy.Predecessors | wnu25/experiments/eventgraph.py:80-81 | The predecessors of a node are exactly the sources of edges into it; a node with no edge in has none. |
| EventGraphPy.AtMostOneParent | wnu25/experiments/eventgraph.py:80-95 | When no two edges enter the same node, a node has at most one parent, so "the first parent" is the only one. |
| EventGraphPy.ParentVisits | wnu25/experiments/eventgraph.py:320-322 | The parent's visit count used by UCB1 is at least 1, and is its own count when that is at least 1. |
| EventGraphPy.EntitySection | wnu25/experiments/eventgraph.py:143-145 | The entity-graph section is empty exactly when it is not requested or the description strips to nothing. |
| EventGraphPy.UserSection | wnu25/experiments/eventgraph.py:147-149 | The user-context section is empty exactly when the user prompt strips to nothing. |
| EventGraphPy.GuessesSection | wnu25/experiments/eventgraph.py:151-156 | The guesses section is empty exactly when there are no forward guesses. |
| EventGraphPy.EnginePrompt | wnu25/experiments/eventgraph.py:354-360 | The search's own expansion prompt is the context section, the guesses section and the closing line: no entity or user part. |
| EventGraphPy.ConstraintsLine | wnu25/experiments/eventgraph.py:180-183 | The constraints line is empty exactly when the user prompt strips to nothing. |
| EventGraphPy.FirstNumber | wnu25/experiments/eventgraph.py:232 | There is no number exactly when the reply holds no decimal digit. |
| EventGraphPy.ParseScore | wnu25/experiments/eventgraph.py:230-236 | The score is always in 1..10: the first number in the reply when it is in 1..10, otherwise 5. |
| EventGraphPy.FirstNumberAfterText | wnu25/experiments/eventgraph.py:232 | After a digit-free prefix, the first number found is the first decimal run. |
| EventGraphPy.ParseScoreReadsFirstNumber | wnu25/experiments/eventgraph.py:230-236 | A reply whose first number is n scores n when n is in 1..10, and 5 otherwise. |
| EventGraphPy.ScoreEventWithOpenAI | wnu25/experiments/eventgraph.py:174-244 | Fails exactly when the call fails. Otherwise the score is in 1..10 and is the parsed reply to the rating prompt. |
| EventGraphPy.EventGraph.constructor | wnu25/experiments/eventgraph.py:41-43 | An empty graph whose next key is 1. |
| EventGraphPy.EventGraph.AddEventNode | wnu25/experiments/eventgraph.py:52-75 | The new node takes the next key, which then rises by one. Missing guess lists become empty, and the statistics start at 0; nothing else changes. |
| EventGraphPy.EventGraph.Texts | wnu25/experiments/eventgraph.py:119 | One text per key, in order. |
| EventGraphPy.EventGraph.Ancestry | wnu25/experiments/eventgraph.py:83-97 | The chain ends at the node, starts at a node with no parent, and each entry is the only parent of the next. |
| EventGraphPy.EventGraph.GatherChain | wnu25/experiments/eventgraph.py:83-97 | The climbing loop and the reversal compute exactly the ancestry. |
| EventGraphPy.EventGraph.GenerateNextEvent | wnu25/experiments/eventgraph.py:99-172 | The result is the model's reply to the prompt built from the chain's texts, the node's forward guesses and the optional parts. |
| EventGraphPy.EventGraph.ChildValues | wnu25/experiments/eventgraph.py:324-331 | Every child has a UCB1 value (all children exist in the graph). |
| EventGraphPy.EventGraph.BestChild | wnu25/experiments/eventgraph.py:318-337 | There is no best child exactly when there are no children. Otherwise it is a child, and its key is greater than its parent's. |
| EventGraphPy.EventGraph.SelectPath | wnu25/experiments/eventgraph.py:305-342 | The path starts at the start node, every node exists, each step goes to the best child of a node with at least `max_children` children, and the last node is one that stops selection. |
| EventGraphPy.EventGraph.ScanChildren | wnu25/experiments/eventgraph.py:318-334 | The scan returns exactly the first child with the strictly largest UCB1 value. |
| EventGraphPy.EventGraph.MaybeExpand | wnu25/experiments/eventgraph.py:344-369 | A fully expanded leaf is returned unchanged, and a failing generation changes nothing. Otherwise the leaf's forward guesses gain the reply, a node with the reply text is added under the next key, and a "leads to" edge from the leaf is appended. |
| EventGraphPy.EventGraph.AddGuessedChild | wnu25/experiments/eventgraph.py:361-369 | Recording the guess, adding the child and its edge changes exactly those three things and keeps every existing node's statistics. |
| EventGraphPy.EventGraph.RecentChain | wnu25/experiments/eventgraph.py:380-391 | At most `scoring_depth` texts, ending with the node's own text when the depth is positive. |
| EventGraphPy.EventGraph.GatherRecentChain | wnu25/experiments/eventgraph.py:380-391 | The climbing loop and the reversal compute exactly the recent chain. |
| EventGraphPy.EventGraph.RunRollout | wnu25/experiments/eventgraph.py:393-423 | The loop's kept texts, key consumption and failure agree with the rollout. Edges never change, and existing nodes stay as they were; only a failure leaves its temporary node behind. |
| EventGraphPy.EventGraph.RolloutTurn | wnu25/experiments/eventgraph.py:400-423 | One turn uses one key. It fails exactly when the step fails, and then leaves the temporary node in the graph. Otherwise the graph is unchanged and the stripped reply is returned. |
| EventGraphPy.EventGraph.RolloutStep | wnu25/experiments/eventgraph.py:402-417 | A temporary node with the last text is generated from and then removed. The reply is the model's answer to the prompt for that lone node. |
| EventGraphPy.EventGraph.GenerateFromFresh | wnu25/experiments/eventgraph.py:408-414 | Generating from a fresh node with no parents and no guesses asks the lone-node prompt. |
| EventGraphPy.EventGraph.RemoveFresh | wnu25/experiments/eventgraph.py:417 | Removing the temporary node restores the nodes as they were before it. |
| EventGraphPy.EventGraph.Simulate | wnu25/experiments/eventgraph.py:371-428 | The recent chain plus the rollout's kept texts is scored; each rollout attempt uses a key; a failing generation or scoring call propagates. A successful score is in 1..10, and existing nodes keep their data. |
| EventGraphPy.EventGraph.Backpropagate | wnu25/experiments/eventgraph.py:430-438 | The nodes become `Credit` of the old nodes along the path; edges, order and next key do not change. |
| EventGraphPy.EventGraph.CreditNode | wnu25/experiments/eventgraph.py:435-438 | One node gains one visit and the score. |
| EventGraphPy.EventGraph.Iterate | wnu25/experiments/eventgraph.py:273-290 | Edges are only appended and statistics never drop. The root gains exactly one visit when the iteration completes. Statistics in range stay in range. |
| EventGraphPy.EventGraph.SimulateAndBackpropagate | wnu25/experiments/eventgraph.py:285-290 | Statistics never drop, the path's first node gains one visit on completion, and ranges are kept. |
| EventGraphPy.EventGraph.RunMcts | wnu25/experiments/eventgraph.py:248-303 | The root's visits rise by exactly the completed iterations. Running out of iterations means all completed. An early stop means at least `min_num_chains` root-to-leaf paths of the desired length exist, and a failure stops the loop early. |
| EventGraphPy.EventGraph.AddEdge | wnu25/experiments/eventgraph.py:368 | Adding an edge appends it and makes its source the target's only parent. |
| EventGraphPy.EventGraph.PathFrom | wnu25/experiments/eventgraph.py:497 | A found path starts at the root, ends at the node and follows edges. |
| EventGraphPy.EventGraph.LeafPathsAmong | wnu25/experiments/eventgraph.py:493-499 | Each collected path is a root-to-leaf path, and there is at most one per candidate leaf. |
| EventGraphPy.EventGraph.RootToLeafPaths | wnu25/experiments/eventgraph.py:493-499 | The paths are exactly the root-to-leaf paths: each listed one is one, and every one is listed. |
| EventGraphPy.EventGraph.Averages | wnu25/experiments/eventgraph.py:503-509 | One average per path node, 0 for an unvisited node. |
| EventGraphPy.EventGraph.ComputePathScore | wnu25/experiments/eventgraph.py:501-510 | The loop computes the mean of the averages, and 0 for an empty path. |
| EventGraphPy.EventGraph.CountPathsOfLength | wnu25/experiments/eventgraph.py:440-449 | The count is the number of root-to-leaf paths of the desired length. |
| EventGraphPy.EventGraph.ScorePaths | wnu25/experiments/eventgraph.py:548-551 | One scored entry per path, carrying its path score. |
| EventGraphPy.EventGraph.GetTopPath | wnu25/experiments/eventgraph.py:542-557 | Without root-to-leaf paths the root alone is returned. Otherwise the returned path is the first one with the highest score. The string bullets the path's texts. |
| EventGraphPy.EdgesExtendTrans | wnu25/experiments/eventgraph.py:368 | Appending edges twice is appending edges. |
| EventGraphPy.CreditAfterKept | wnu25/experiments/eventgraph.py:430-438 | Crediting a path whose first node occurs once raises that node's visits by exactly one. No statistic drops, and ranges are kept. |
| EventGraphPy.WithLength | wnu25/experiments/eventgraph.py:446-448 | The filtered list holds exactly the paths of the given length. |
| EventGraphPy.CountWithLength | wnu25/experiments/eventgraph.py:445-449 | The counting loop returns the number of paths of that length. |
| EventGraphPy.AverageInRange | wnu25/experiments/eventgraph.py:504-509 | A node whose statistics are in range has an average in 0..10, and in 1..10 when visited. |
| EventGraphPy.CreditKeepsRange | wnu25/experiments/eventgraph.py:430-438 | Crediting a score in 1..10 keeps every node's statistics in range. |
| EventGraphPy.PathScoreInRange | wnu25/experiments/eventgraph.py:501-510 | A path of nodes with statistics in range scores in 0..10. |
| EventGraphPy.EdgePathClimbs | wnu25/experiments/eventgraph.py:64-65 | Keys only grow along an edge path, so the graph has no cycle. |
| EventGraphPy.OnlyEdgePath | wnu25/experiments/eventgraph.py:497 | Every edge path to a node is the one path from its first node. |
| EventGraphPy.LeafPathsAmongComplete | wnu25/experiments/eventgraph.py:493-499 | Every root-to-leaf path ending at a listed leaf is collected. |
| EventGraphPy.SelectedPathRisesFromRoot | wnu25/experiments/eventgraph.py:305-342 | The start node occurs once in a selected path, so backpropagation credits it once. |
| EventGraphPy.RisesTo | wnu25/experiments/eventgraph.py:305-342 | Keys strictly increase along a selected path. |
| EventGraphPy.RolloutPromptIsNextPrompt | wnu25/experiments/eventgraph.py:402-414 | The rollout prompt is the next-event prompt for a chain of only the last text, without guesses. |
| EventGraphPy.RolloutCounts | wnu25/experiments/eventgraph.py:397-423 | A rollout makes at most `rollout_depth` attempts and none from an empty chain. A failure comes one attempt after the kept texts; otherwise at most one attempt (the blank reply) keeps nothing. |
| EventGraphPy.KeptRollout | wnu25/experiments/eventgraph.py:397-423 | A rollout is its first kept texts followed by the rollout from the longer chain. |
| EventGraphPy.RolloutSeesLastTextOnly | wnu25/experiments/eventgraph.py:398-414 | Rollouts from two chains with the same last text agree: only the last text reaches the model. |
| EventGraphPy.RolloutKeepsStrippedText | wnu25/experiments/eventgraph.py:419-423 | Every kept rollout text is stripped and non-blank. |
| EventGraphPy.Credit | wnu25/experiments/eventgraph.py:430-438 | Backpropagation keeps the set of nodes. |
| EventGraphPy.CreditStep | wnu25/experiments/eventgraph.py:434-438 | Crediting one more path node bumps just that node. |
| EventGraphPy.CreditCounts | wnu25/experiments/eventgraph.py:430-438 | Each node gains one visit and the score once per occurrence in the path; nothing else about it changes. |
| EventGraphPy.ValuesOf | wnu25/experiments/eventgraph.py:324-331 | One UCB1 value per child, from its average, the parent's visits and its own visits. |
| EventGraphPy.BuildNextPrompt | wnu25/experiments/eventgraph.py:121-159 | The step-by-step string building yields exactly the next-event prompt. |
| EventGraphPy.AppendGuessLines | wnu25/experiments/eventgraph.py:153-155 | Appending one "- guess" line per guess. |
| EventGraphPy.ParentFacts | wnu25/experiments/eventgraph.py:80-81 | A node has at most one parent, and it exists and has a smaller key. |
| EventGraphPy.FreshPrompt | wnu25/experiments/eventgraph.py:402-414 | A fresh node with no parents and no guesses is prompted with the lone-text rollout prompt. |
| EventGraphPy.FreshNodeStandsAlone | wnu25/experiments/eventgraph.py:83-97 | A fresh node's chain is its own text alone. |
| EventGraphPy.ChildFacts | wnu25/experiments/eventgraph.py:77-78 | Every child exists and has a larger key than its parent. |
| EventGraphPy.SuccessorsAppend | wnu25/experiments/eventgraph.py:368 | An appended edge adds its target at the end of its source's successors. |
| EventGraphPy.PredecessorsAppend | wnu25/experiments/eventgraph.py:368 | An appended edge adds its source at the end of its target's predecessors. |
| EventGraphPy.AncestryUnique | wnu25/experiments/eventgraph.py:83-97 | Any chain from a parentless node, following only parents, is the ancestry of its last node. |
| EventGraphPy.NoSuccessors | wnu25/experiments/eventgraph.py:490-491 | A node that no edge leaves has no successors: it is a leaf. |
| EventGraphPy.EventGraph.PathScores | wnu25/experiments/eventgraph.py:548-551 | One score per path, each the path's score, so every path is rankable. |
| EventGraphPy.StripIdempotent | wnu25/experiments/eventgraph.py:420-421 | Stripping an already stripped text changes nothing. |
| RunEvaluation.Entries | wnu25/experiments/run_evaluation.py:23-27 | One (path, bulleted text, path score) entry per path, in the order of the paths. |
| RunEvaluation.SliceTo | wnu25/experiments/run_evaluation.py:30 | Python slicing `xs[:n]`: a prefix of length n clipped to the list, and for negative n all but the last -n items. |
| RunEvaluation.ScoreEntries | wnu25/experiments/run_evaluation.py:23-27 | The loop builds exactly the entries of the paths. |
| RunEvaluation.EntriesHead | wnu25/experiments/run_evaluation.py:29 | After the stable descending sort the first entry is the path with the highest score, the first one on a tie. |
| RunEvaluation.SliceOfSorted | wnu25/experiments/run_evaluation.py:29-30 | A slice of the descending sort is still sorted descending and holds only input items. |
| RunEvaluation.TopNOf | wnu25/experiments/run_evaluation.py:23-30 | The top n are sorted by score descending, number at most n, are entries of given paths, and for n >= 1 start with the first best path. |
| RunEvaluation.LeafPathsInGraph | wnu25/experiments/run_evaluation.py:15 | Every root-to-leaf path of a valid graph runs over nodes of the graph. |
| RunEvaluation.TopNFromPaths | wnu25/experiments/run_evaluation.py:16-30 | Without paths the result is the root alone with its score; otherwise the sorted, sliced entries. |
| RunEvaluation.GetTopNPaths | wnu25/experiments/run_evaluation.py:9-30 | The top n entries of the graph's root-to-leaf paths. |
| RunEvaluation.TopNSorted | wnu25/experiments/run_evaluation.py:9-30 | The result is sorted by score descending; it is one entry without paths and at most n entries otherwise. |
| RunEvaluation.TopNRootEntry | wnu25/experiments/run_evaluation.py:16-21 | Without root-to-leaf paths the result is exactly the root's own entry. |
| RunEvaluation.TopNEntries | wnu25/experiments/run_evaluation.py:9-30 | Every returned entry is the root alone or one of the paths, with that path's text and score. |
| RunEvaluation.TopNHeadIsTopPath | wnu25/experiments/run_evaluation.py:9-30 | For n >= 1 the first returned path is the first path with the highest score. |
| RunEvaluation.ChainTexts | wnu25/experiments/run_evaluation.py:53 | One text per chain node, in order. |
| RunEvaluation.ChainPromptIsNextPrompt | wnu25/experiments/run_evaluation.py:53-60 | A parent-linked chain is the ancestry of its last node, so the prompt for it is the one generate_next_event builds. |
| RunEvaluation.AddChild | wnu25/experiments/run_evaluation.py:61-62 | The new child takes the next key, has the current node as its only parent and no children; only the current node gains a child. |
| RunEvaluation.ExpandOnce | wnu25/experiments/run_evaluation.py:60-62 | A failing generation changes nothing; otherwise one child with the reply's text is added under the next key with an edge from the current node. |
| RunEvaluation.AskNext | wnu25/experiments/run_evaluation.py:60 | The reply is the model's answer to the prompt for the current chain. |
| RunEvaluation.ExpandStep | wnu25/experiments/run_evaluation.py:59-63 | One pass of the inner loop adds the next child, or stops exactly when the next reply fails. |
| RunEvaluation.ExpandNode | wnu25/experiments/run_evaluation.py:57-63 | Without a failure exactly max(branching_factor, 0) children are added, each the reply to the same prompt under consecutive keys; a failure stops after fewer. No other node changes. |
| RunEvaluation.WalkOnce | wnu25/experiments/run_evaluation.py:57-67 | One round extends the chain by one of the new children; with no children (`branching_factor` <= 0) the random choice raises. |
| RunEvaluation.WalkFrom | wnu25/experiments/run_evaluation.py:52-67 | The loop stops at the narrative length. A walk that succeeds has exactly that many nodes. Each new node is a reply to its chain's prompt. Each round adds `branching_factor` nodes. |
| RunEvaluation.Advance | wnu25/experiments/run_evaluation.py:57-67 | One loop round keeps the walk invariant and lengthens the chain by one. |
| RunEvaluation.Regather | wnu25/experiments/run_evaluation.py:53 | Re-gathering the chain of the current node gives back the walked chain. |
| RunEvaluation.GenerateMultibranchChain | wnu25/experiments/run_evaluation.py:32-69 | A stub whose chain is already long enough is returned unchanged. Otherwise the result has exactly `narrative_length` nodes. It is the ancestry of its last node, each new node answering the prompt of the chain before it. It fails only when the branching factor is not positive or a generation fails. |
| RunEvaluation.Strategies | wnu25/experiments/run_evaluation.py:329-335 | The strategies of the rows, each once, in order of first appearance (dict insertion order). |
| RunEvaluation.Group | wnu25/experiments/run_evaluation.py:330-332 | A strategy's group is exactly the rows with that strategy. |
| RunEvaluation.GroupNonEmpty | wnu25/experiments/run_evaluation.py:336-338 | Every listed strategy has a non-empty group, so the `n == 0` skip never fires. |
| RunEvaluation.GroupByStrategy | wnu25/experiments/run_evaluation.py:329-332 | The loop's dict holds one group per strategy, in order of first appearance, each the rows of that strategy. |
| RunEvaluation.ScoresOf | wnu25/experiments/run_evaluation.py:339-345 | The category scores of the rows, in order. |
| RunEvaluation.Aggregate | wnu25/experiments/run_evaluation.py:334-376 | It succeeds exactly when every row carries scores; an error row raises. Then there is one row per strategy in first-appearance order. |
| RunEvaluation.SumGroup | wnu25/experiments/run_evaluation.py:339-345 | The category sums of a scored group; an error row in it raises. |
| RunEvaluation.AggregateGroup | wnu25/experiments/run_evaluation.py:336-376 | A group's row is the category averages over the group and the mean of those seven; raising implies some row was unscored. |
| RunEvaluation.AggregateByStrategy | wnu25/experiments/run_evaluation.py:334-376 | The aggregation loop computes exactly Aggregate. |
| RunEvaluation.AggregateComplete | wnu25/experiments/run_evaluation.py:334-376 | Having scored every group and built each group's row, the loop's result is Aggregate. |
| RunEvaluation.AggregateWithin | wnu25/experiments/run_evaluation.py:347-364 | When every judge score lies in [lo, hi], every aggregate average and the overall average lie in [lo, hi]. |
| RunEvaluation.AggregateAtWithin | wnu25/experiments/run_evaluation.py:347-364 | The same bound for one strategy's row. |
| RunEvaluation.SumOfBounds | wnu25/experiments/run_evaluation.py:339-345 | Sums of n scores within [lo, hi] lie within [n*lo, n*hi]. |
| RunEvaluation.MctsRowScores | wnu25/experiments/run_evaluation.py:175-192 | There is an MCTS row exactly when some top path was judged. |
| RunEvaluation.MctsRowWithin | wnu25/experiments/run_evaluation.py:175-192 | When every judged score lies in [lo, hi], the MCTS row's averages and its overall average lie in [lo, hi]. |
| LexicalDiversity.CleanLines | wnu25/experiments/lexical_diversity_evaluation.py:95-96 | Blank lines are dropped, a leading "- " is removed and the rest stripped; never more lines than given. |
| LexicalDiversity.ExtractRawText | wnu25/experiments/lexical_diversity_evaluation.py:92-104 | The raw text is pure ASCII and no longer than the cleaned lines joined by spaces. |
| LexicalDiversity.CleanBullets | wnu25/experiments/lexical_diversity_evaluation.py:95-96 | Cleaning "- t" lines gives back the stripped texts, one per line. |
| LexicalDiversity.RawTextOfBulleted | wnu25/experiments/lexical_diversity_evaluation.py:92-104 | The raw text of a bulleted narrative is its stripped event texts joined by spaces, non-ASCII characters removed. |
| LexicalDiversity.SplitBulleted | wnu25/experiments/lexical_diversity_evaluation.py:94 | Splitting a bulleted narrative on newlines gives back its "- t" lines. |
| LexicalDiversity.LowerAscii | wnu25/experiments/lexical_diversity_evaluation.py:72 | Lower-casing maps exactly the letters A-Z to a-z and keeps every other character. |
| LexicalDiversity.AsciiTokens | wnu25/experiments/lexical_diversity_evaluation.py:75 | The kept tokens are exactly the given tokens that are pure ASCII. |
| LexicalDiversity.Ngrams | wnu25/experiments/lexical_diversity_evaluation.py:82 | The n-grams are the windows `tokens[i..i+n]`, `|tokens| - n + 1` of them, and none when there are fewer than n tokens. |
| LexicalDiversity.ElementsCount | wnu25/experiments/lexical_diversity_evaluation.py:85-88 | The number of distinct items is at most the length, equal to it exactly when no item repeats, and at least 1 for a non-empty list. |
| LexicalDiversity.NgramDiversity | wnu25/experiments/lexical_diversity_evaluation.py:77-90 | The diversity is 0 with fewer than n tokens, in (0, 1] otherwise, and always in [0, 1]. |
| LexicalDiversity.ComputeNgramDiversity | wnu25/experiments/lexical_diversity_evaluation.py:67-90 | For any tokenizer the diversity lies in [0, 1]. |
| LexicalDiversity.RatioBounds | wnu25/experiments/lexical_diversity_evaluation.py:88 | A ratio of d unique to t n-grams with 1 <= d <= t lies in (0, 1] and is 1 exactly when d = t. |
| LexicalDiversity.DiversityOneIffDistinct | wnu25/experiments/lexical_diversity_evaluation.py:84-88 | The diversity is 1 exactly when no n-gram repeats. |
| LexicalDiversity.UnigramsDistinct | wnu25/experiments/lexical_diversity_evaluation.py:84-88 | The unigram diversity is 1 exactly when no token repeats. |
| LexicalDiversity.GenerateBaselinePath | wnu25/experiments/lexical_diversity_evaluation.py:124-151 | The stub is added as a fresh root. The chain always continues from the first new child. The result has max(target_length, 1) nodes, each new one the reply to the prompt of the chain before it, and the text is the chain's bulleted texts. A non-positive branching factor raises once a child is needed. |
| LexicalDiversity.FreshRoot | wnu25/experiments/lexical_diversity_evaluation.py:125 | A freshly added stub node has no parent and no child. |
| LexicalDiversity.BulletedChain | wnu25/experiments/lexical_diversity_evaluation.py:148-149 | The final chain is the ancestry of the last node and the text bullets its texts. |
| LexicalDiversity.LastAt | wnu25/experiments/lexical_diversity_evaluation.py:266-279 | The result stored at slot k is one of the completions, with run index k. |
| LexicalDiversity.Extent | wnu25/experiments/lexical_diversity_evaluation.py:274-276 | The padded lists reach past every completed run index. |
| LexicalDiversity.Store | wnu25/experiments/lexical_diversity_evaluation.py:268-279 | Storing one more completion pads the lists and places its narratives at their run index; every slot then holds the last completion for that index. |
| LexicalDiversity.PlaceResults | wnu25/experiments/lexical_diversity_evaluation.py:266-283 | In any completion order, after the loop each slot holds the narratives of the last completion with that run index, or nothing. |
| LexicalDiversity.Present | wnu25/experiments/lexical_diversity_evaluation.py:286-287 | The filtered list holds exactly the filled slots. |
| LexicalDiversity.CollectResults | wnu25/experiments/lexical_diversity_evaluation.py:266-287 | The two narrative lists are the filled slots in run-index order, and are equally long. |
| LexicalDiversity.PresentAligned | wnu25/experiments/lexical_diversity_evaluation.py:274-287 | Slots filled in step keep the two narrative lists equally long. |
| LexicalDiversity.LastAtUnique | wnu25/experiments/lexical_diversity_evaluation.py:278-279 | With distinct run indices, slot k holds a result exactly when that result has run index k. |
| LexicalDiversity.SlotsOrderIndependent | wnu25/experiments/lexical_diversity_evaluation.py:266-279 | With distinct run indices, the slot contents do not depend on the order in which threads complete. |
| AppStore.IndexOf | src/App.tsx:115-123 | The rebuilt index holds exactly the keys of the array, each sent to its last position. |
| AppStore.BuildIndex | src/App.tsx:115-123 | Clearing the map and setting each element's position in order builds exactly IndexOf. |
| AppStore.ModMap | src/App.tsx:207-216 | The modified map holds exactly the modified keys, each to the last datum carrying it. |
| AppStore.ApplyModified | src/App.tsx:214-228 | Applying modified data through the index never changes the array's length. |
| AppStore.ModifiedReplaces | src/App.tsx:214-228 | After the modified pass, an element whose key is indexed at its own position and was modified becomes the last modified datum for that key; every other element is unchanged. The index stays consistent. A selection whose key is indexed and modified is replaced by that datum. |
| AppStore.ModifiedLoop | src/App.tsx:214-228 | The forEach loop computes exactly ApplyModified and the modified map. |
| AppStore.ApplyInserted | src/App.tsx:230-239 | The insert pass only appends. Each appended datum is the modified datum of an inserted key that was not in the index, and is indexed at its new position. Earlier entries keep their positions, and every inserted key with data ends up indexed. |
| AppStore.InsertedLoop | src/App.tsx:230-239 | The forEach loop computes exactly ApplyInserted. |
| AppStore.RemoveKeys | src/App.tsx:241-243 | The filtered array keeps exactly the elements whose key was not removed. |
| AppStore.SyncedConsistent | src/App.tsx:210-278 | After the modified, inserted and removed passes the index still sends every key to a position holding it. No removed key survives in the array or the index. |
| AppStore.SyncArray | src/App.tsx:210-278 | The three passes on one array compute exactly Synced. |
| AppStore.MergedConsistent | src/App.tsx:186-294 | Merging a change keeps both indexes consistent with their arrays. |
| AppStore.MergeChange | src/App.tsx:186-284 | The node passes, then the link passes, the model data and the skip flag compute exactly Merged. |
| AppStore.Without | src/App.tsx:305-311 | Filtering out a text removes every copy of it and keeps every other text with its multiplicity. |
| AppStore.StripGuesses | src/App.tsx:303-314 | A node keeps its key, text and ends. Its guess lists stay present or absent as they were, and no longer contain the removed text. |
| AppStore.TextByKeyIsLast | src/App.tsx:322-325 | The key-to-text map has the array's keys, each with the text of the last node with that key. |
| AppStore.GraphLines | src/App.tsx:318-331 | One line per link, in order, built from the link and the node-text map. |
| AppStore.GraphLineNamesEnds | src/App.tsx:326-330 | A link between two nodes is written "- <from text> <link text> <to text>" with the texts of the last nodes carrying its end keys. |
| AppStore.Described | src/App.tsx:286-292 | Rebuilding the entities description leaves the events pane's arrays alone. |
| AppStore.StripAll | src/App.tsx:303-314 | Every events node has the removed text stripped from its guess lists. |
| AppStore.App.constructor | src/App.tsx:41-128 | The initial state: one start event with key 9999, empty entities pane, nothing selected, not loading; the index built from the events arrays. |
| AppStore.App.RefreshNodeIndex | src/App.tsx:115-118 | The node index becomes IndexOf of the array; nothing else changes. |
| AppStore.App.RefreshLinkIndex | src/App.tsx:120-123 | The link index becomes IndexOf of the array; nothing else changes. |
| AppStore.App.SetAppLoading | src/App.tsx:144-148 | Only the loading flag changes. |
| AppStore.App.HandleEventsModelChange | src/App.tsx:186-297 | While loading nothing changes. Otherwise the events pane and the shared indexes become Merged of the change, and the entities pane is untouched. |
| AppStore.App.HandleEntitiesModelChange | src/App.tsx:186-299 | While loading nothing changes. Otherwise the entities pane and the shared indexes become Merged of the change, and the events pane's description is rebuilt from the new entity graph. |
| AppStore.App.HandleEventNodeRemoved | src/App.tsx:301-316 | The removed node's text leaves every events node's guess lists. Nothing else changes. |
| AppStore.CompleteIndexAppliesEdits | src/App.tsx:214-228 | With an index covering every key of an array without repeated keys, every modified element is replaced: no edit is lost. |
| AppStore.SyncedComplete | src/App.tsx:210-278 | An index that covers its array still covers it after the three passes. |
| AppStore.MergedComplete | src/App.tsx:186-294 | A pane whose indexes cover its arrays accepts any change and still covers them after it. |
| AppStore.MergeCovered | src/App.tsx:186-294 | Merging a change into a covered pane computes Merged and keeps the cover. |
| AppStore.IndexedApp.constructor | src/App.tsx:41-128 | The initial state with each pane's indexes covering its own arrays. |
| AppStore.IndexedApp.HandleEventsModelChange | src/App.tsx:186-297 | With per-pane indexes, an events change merges through the events indexes only and keeps every cover. |
| AppStore.IndexedApp.HandleEntitiesModelChange | src/App.tsx:186-299 | With per-pane indexes, an entities change merges through the entities indexes, rebuilds the description and keeps every cover. |
| AppStore.AddEntityMerged | src/App.tsx:230-237 | Adding entity node 1 to an empty pane appends it and indexes it at 0. |
| AppStore.DeleteStartMerged | src/App.tsx:241-244 | Deleting the start event empties the events array and rebuilds the node index as empty. |
| AppStore.EditEntityMerged | src/App.tsx:214-219 | Editing entity node 1 takes effect exactly when key 1 is indexed. |
| AppStore.SharedIndexLosesEntityEdit | src/App.tsx:112-113 | Add entity, delete start event, edit entity through the shared index: the entity keeps its old text. |
| AppStore.PerPaneIndexKeepsEntityEdit | src/App.tsx:112-113 | The same three changes with per-pane indexes: the entity gets its edited text. |

## Left out

- The language-model transport (`callOpenAI` in `src/utils.ts`, `call_openai` and its retries in `llm_util.py`) is not modelled. Only its answer or its error is, as a parameter of the operations that call it.
- `judge_narrative` in `judge.py` and `judgeNarrative`'s HTTP call are not modelled. The judge's seven category scores are inputs, and the fallbacks are modelled.
- The UCB1 formula (`log`, `sqrt`, the 1e-6 epsilon) is floating point. It is an abstract parameter, so only the argmax and its tie-break are proved.
- Prompt wording: the storyteller introduction and the instructions of each prompt are abbreviated to fixed headers. The structure of each prompt is modelled: which sections appear, in what order, and how the lines are bulleted.
- `generateEntityGraph`, `generateAqlFromOpenAI` and the entity-graph JSON schema in `src/utils.ts` are foreign calls outside the search.
- Floating-point scores (`float`, `toFixed`, numpy statistics) are modelled as exact `real`. The Python node's `mcts_total_score` is modelled as an integer, because it only ever accumulates integer scores.
- Logging, CSV export (`export_mcts_paths_as_csv`, the result files), plotting (`plot_graph`), file reading and argument parsing are I/O.
- Layout, node locations other than copying the leaf's `loc`, selection, GoJS transactions and undo, and `GuidedDraggingTool.ts` depend on rendering.
- The optional `onNodeAdded` callback of `runMcts` and `maybeExpand` is not modelled: it only lets the diagram react to a new node.
- Thread pools: each evaluation task is modelled on its own. Collection by `run_idx` is modelled for every completion order, and a failed thread is a missing slot.
- `nltk.word_tokenize` is a parameter of `ComputeNgramDiversity`.
- `random.choice` in `generate_multibranch_chain` is a nondeterministic choice among the new children. The `pickFirst` flag selects the first child, as `generate_baseline_path` does.
- `handleDiagramEventBase` (selection tracking), `updateEventsModelData`, `updateEntitiesModelData`, the resizer and load/save in `src/App.tsx` are not modelled. They are UI updates of single fields.
- The `loc`, colour and category fields of node data are modelled only where the operations set them.
- EventGraphPy.FirstNumber: reads ASCII digits only. Python's `\d` also matches other Unicode decimal digits, which the replies do not contain.
- EventGraphPy.EventGraph.GatherChain: requires the graph invariant that edges go from smaller to larger ids and no node has two parents. On a cyclic graph the Python loop would not terminate; the engine never builds one.
- Mcts.MaybeExpand: requires every link to join two present nodes. A stale link keeps the key of a removed node, and `makeUniqueKeyFunction` can hand that key out again. The link then joins the tree and can close a cycle, on which `select` never stops (Mcts.StaleLinkClosesCycle shows one). Its skips of a missing leaf and a missing child are modelled; only the closure requirement is stronger than the source's.
- Mcts.Iterate: the same closure requirement, because it calls MaybeExpand. Its backpropagation half, Mcts.SimulateAndBackpropagate, needs only the grading and allows dangling links.
- Mcts.RunMcts: the same closure requirement, because it runs Iterate.
- Utils.ScoreEventWithJudge: a category is a whole number or missing. Other JSON values are not modelled: a `null` (which `+` reads as 0), a string (which turns the sum into string concatenation) or a fraction.
- EventGraphPy.EventGraph.RootToLeafPaths: assumes `nx.all_simple_paths(G, root, root)` yields no path, so a childless root has no leaf path. Some newer networkx releases yield `[root]` there, which would change RootToLeafPaths, CountPathsOfLength for length 1 and GetTopPath on a lone root.
- EventGraphPy.Successors: edges are a list. networkx merges a repeated edge, and the modelled operations never add an edge twice, because every new edge enters a fresh node.
- AppStore.App.HandleEventsModelChange: requires that every indexed modified key's position lies inside the array. JavaScript would otherwise write past the end and leave holes; the writes past the end are not modelled.
- AppStore.App.HandleEntitiesModelChange: the same in-range requirement as the events handler.
- AppStore.MergeChange: the same in-range requirement.
- AppStore.SyncArray: the same in-range requirement, for one array.
- AppStore.ModifiedLoop: the same in-range requirement, for the modified pass.
- AppStore.ApplyModified: the same in-range requirement, for the modified pass it specifies.
- AppStore.Synced: the same in-range requirement, for the modified pass of one array.
- AppStore.Merged: the same in-range requirement, for both arrays of the pane.

## Findings

| source | as written | input that shows it | evidently intended | confidence | as-written member | corrected member |
|---|---|---|---|---|---|---|
| src/App.tsx:112-113 | One node index and one link index are shared by the events pane and the entities pane, and a removal in either pane rebuilds them from that pane's array alone | Add entity node 1 (indexed at 0), delete the start event (the node index is rebuilt from the now empty events array), then edit entity 1's text: the edit finds no index entry and is dropped | Each pane keeps its own node and link index, so an edit in one pane is never lost to a removal in the other | not executed | AppStore.SharedIndexLosesEntityEdit | AppStore.PerPaneIndexKeepsEntityEdit |
