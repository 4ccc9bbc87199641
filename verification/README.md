# Verified model of the Sentinel algorithmic cores

This project models, in Dafny 4.11, the parts of the Sentinel repository that compute something hard, and proves what
they promise. It needs no other file: `dafny verify dfyconfig.toml` checks all of it.

What is modelled, by component:

- **Condition DSL** (`Condition*.dfy`). The lexer, the recursive-descent parser with its depth guard (64) and token
  guard (4096), and the sink interface that lets one parser build several target models. `ConditionParser.Parser` is
  the class with the moving cursor and depth counter; its methods are proved to compute the `Parse*` functions.
  `ConditionGrammar` gives the grammar as derivation trees and proves the parser sound, complete and unambiguous.
  `ConditionFusion` proves that parsing with any sink is parsing to a syntax tree and folding the sink over it.
  `ConditionRuntime` is the sink of the runtime conditions, and `ConditionOutcome` says which texts it accepts.
  `ConditionRendering` and `ConditionPrinter` print token lists, trees and runtime conditions with as few parentheses
  as precedence allows and prove the round trip over characters. `ConditionSpelling` says without the lexer which
  texts spell which tokens and proves that the lexer reads exactly those. `ConditionErrors` proves that the parser
  stops at the first token that no continuation can mend.
- **Undo and redo** (`HistoryMachine`, `ListEdits`, `ProjectHistory`, `ProjectEffects`, `ProjectShapes`, `KeyedList`,
  `CampaignHistory`, `CampaignEffects`, `CampaignUndo`). `HistoryMachine` is the two-stack machine over any document with reversible commands: every
  reachable state lies on a timeline of documents. `ProjectHistory` instantiates it with the eight index-based project
  commands, and `ProjectShapes` says what still holds of runs with removals that undo does not reverse.
  `CampaignHistory` shows that the list-based campaign refines a campaign keyed by id, on which the inverses are exact;
  `CampaignUndo` says for every command on which campaigns undo restores the lists up to order. `ProjectEffects` and
  `CampaignEffects` say index by index what every command changes and when it is refused.
- **Routes** (`Tsp`, `Routing`). Greedy nearest neighbour, in-place 2-opt, the callers' matrix fill and rotation, and
  the concatenation of legs.
- **Call strings** (`CommandParser`, `Brackets`, `CommandNumbers`, `CommandRoundTrip`, `TameText`, `StrayText`, `CommandTermination`,
  `OpenCalls`, `CallCuts`, `CommandOverflow`, `ParenTexts`). The quote-aware parser of Lua-style calls, its round trip
  with every string content and every form of number literal, and on which texts it returns at all: never a loop, and for texts without literals exactly
  when the stack overflows.
- **Guide bundles** (`GuideBlocks`, `GuideLines`). The block scanner with recovery and the header/step split.
- **Search** (`LikeEscape`, `Interleave`, `PageOrder`). LIKE escaping and the three rank tiers, the fair merge of hits,
  and the order of the hits on a page.
- **Avoidance** (`Avoidance`, `AvoidanceProtocol`). Stamping and restoring polygon areas, and every interleaving of
  any number of clients under the readers-writer lock.
- **Path passes** (`Geometry`, `StringPull`, `PullGuards`, `PostProcess`, `WallClearance`, `ClearedPath`,
  `Pathfinding`). String pulling,
  densification and wall clearance over an arbitrary navmesh oracle (`Geometry.Nav`).

Conventions. `f32` is `real`; strings are sequences of characters; text positions count characters. The navmesh, the
square root and the arc tangent are arbitrary functions, and a lemma names the law it needs of them (`IsSqrt`,
`AtanInRange`, `FaithfulProjection`). Error texts are constructors that keep the values shown in the text. A method
that loops or changes state in the source is a method here, proved equal to a specification function; the laws are
proved about that function.

Findings about the code:

- Undoing the removal of an action that is not the last one of its operation appends it at the end instead of putting
  it back, unless all later actions equal it (`ProjectHistory.HandlerRemovalExactIff`).
- Undo does not restore a campaign for three commands, because none of them checks ids: adding a node or an edge under
  a taken id (undo removes the older one), and replacing a node by one with the id of an earlier node (undo overwrites
  that one). `CampaignUndo.UndoIff` gives the exact condition for every command, and `DuplicateNodeIsNotUndone`,
  `DuplicateEdgeIsNotUndone` and `TakenOverIdIsNotUndone` are the inputs.
- The call parser overflows the stack on some texts. A call that is not closed loses the last character of its text,
  and a lone `(` is its own argument text; so a text overflows when few enough characters follow the innermost open
  call. `CommandOverflow.CallTextOverflowsIff` says exactly when, for every text without literals, and
  `ParenTexts.ParensOverflowIff` reads it off the parentheses. A `(` inside a string literal in front of a call's own
  parenthesis can overflow the stack although all brackets balance (`CommandTermination.QuotedParenOverflows`).
- Parsing a call never loops (`CommandTermination.CallsNeverLoop`). Only `parseArgs` called directly does, on a closer
  that has no bracket to close (`CommandTermination.UnmatchedCloserSticks`).

## Model

| member | source | states |
|---|---|---|
| ConditionLexer.Tokenize | SentinelQuesting/compiler/src/condition.rs:80-114 | the scan loop computes the token list of the text, including the error and its offset |
| ConditionLexer.ScanNumber | SentinelQuesting/compiler/src/condition.rs:95-103 | a signed digit run becomes a number exactly when it fits an i64, otherwise an invalid-number error with that text |
| ConditionLexer.ParseI64 | SentinelQuesting/compiler/src/condition.rs:102 | digit-by-digit parsing yields the decimal value, or nothing outside the i64 range |
| ConditionLexer.NextToken | SentinelQuesting/compiler/src/condition.rs:85-111 | one turn of the scan loop reads the first token of the rest and always advances; ConditionSpelling.LexIff says which texts the tokens have |
| ConditionSpelling.LexIff | SentinelQuesting/compiler/src/condition.rs:80-114 | a text lexes to a token list exactly when it spells it: the fixed texts, decimal texts and words of its tokens with any white space between them, none needed unless the next character would extend a word or a number |
| ConditionSpelling.LexRefusesIff | SentinelQuesting/compiler/src/condition.rs:80-114 | lexing fails exactly when, behind a spelled part, there stands a number outside the i64 range or a character that starts no token, and the error shows that text or that character and its offset |
| ConditionSpelling.TrimmedSpells | SentinelQuesting/compiler/src/condition.rs:265-278 | trimming an expression changes none of its tokens |
| ConditionSpelling.ExpressionIff | SentinelQuesting/compiler/src/condition.rs:80-278 | for every sink, a text is parsed to a value exactly when it spells a derivation of at most 4096 tokens, nested at most 64 deep, whose tree the sink folds to that value |
| ConditionErrors.FirstOffence | SentinelQuesting/compiler/src/condition.rs:135-195 | a token list that is no expression nested at most 64 deep is refused at the first place that no continuation can mend: what stands before can be completed to an expression, what stands there as well cannot, and the error shows what stands there |
| ConditionParser.ParseOr | SentinelQuesting/compiler/src/condition.rs:135-139 | every successful expression parse consumes at least one token; the recursion terminates on tokens left and grammar level |
| ConditionParser.Parser.Advance | SentinelQuesting/compiler/src/condition.rs:119-124 | moves past the current token if there is one and returns it |
| ConditionParser.Parser.Enter | SentinelQuesting/compiler/src/condition.rs:126-132 | deepens by one and refuses beyond 64 |
| ConditionParser.Parser.Or | SentinelQuesting/compiler/src/condition.rs:135-139 | the cursor loop computes the OR level; on success the cursor stands at the rest and the depth is as before |
| ConditionParser.Parser.And | SentinelQuesting/compiler/src/condition.rs:141-145 | the same for the AND level |
| ConditionParser.Parser.Not | SentinelQuesting/compiler/src/condition.rs:147-156 | the same for NOT, depth restored |
| ConditionParser.Parser.Primary | SentinelQuesting/compiler/src/condition.rs:158-172 | the same for parentheses and predicates, depth restored |
| ConditionParser.Parser.Arguments | SentinelQuesting/compiler/src/condition.rs:178-189 | the argument loop reads comma-separated numbers and stops where the grammar says |
| ConditionParser.Parser.Predicate | SentinelQuesting/compiler/src/condition.rs:174-194 | a predicate call is read and handed to the sink's leaf |
| ConditionParser.ParseWith | SentinelQuesting/compiler/src/condition.rs:265-278 | the whole entry point: trim, empty check, lex, token guard, parse, trailing-input check |
| ConditionFusion.ParseIsFold | SentinelQuesting/compiler/src/condition.rs:51-69 | for every sink, the value of a parse is the fold of the sink over the tree, and its error is that of the first refused leaf among the calls read so far, in text order, or else the syntax error |
| ConditionFusion.ParseTextIsFold | SentinelQuesting/compiler/src/condition.rs:265-278 | the same for whole texts: one parser serves every target model, errors included |
| ConditionFusion.SinksAgreeUpToLeaves | SentinelQuesting/compiler/src/condition.rs:45-69 | two sinks that accept the same leaves accept the same texts |
| ConditionGrammar.SoundOr | SentinelQuesting/compiler/src/condition.rs:135-139 | whatever the parser accepts has a derivation that spells the consumed tokens, denotes the tree and nests at most 64 deep |
| ConditionGrammar.CompleteOr | SentinelQuesting/compiler/src/condition.rs:135-195 | every derivation within the depth guard is parsed to its tree and leaves the rest |
| ConditionGrammar.DerivationIsUnique | SentinelQuesting/compiler/src/condition.rs:135-195 | NOT binds tighter than AND, AND tighter than OR: a token list has at most one derivation |
| ConditionGrammar.ParseTokensIff | SentinelQuesting/compiler/src/condition.rs:265-278 | a token list parses to a value exactly when it has at most 4096 tokens, a derivation nested at most 64 deep, and the sink accepts its leaves with that value |
| ConditionGrammar.DerivableOutcome | SentinelQuesting/compiler/src/condition.rs:265-278 | on derivable input within the guards the outcome, errors included, is the fold of the unique tree |
| ConditionGrammar.ParseTextIff | SentinelQuesting/compiler/src/condition.rs:265-278 | the same characterisation for source texts through trim and lexer |
| ConditionRuntime.LeafAcceptedIff | SentinelQuesting/compiler/src/condition.rs:226-258 | a leaf is accepted if and only if its predicate is one of the seven, with that arity, and every argument fits its u32 or u8 width |
| ConditionRuntime.LeafRefusal | SentinelQuesting/compiler/src/condition.rs:226-258 | a refusal names an unknown predicate with its arity, or the first argument that does not fit |
| ConditionRuntime.XpIsLevel | SentinelQuesting/compiler/src/condition.rs:254-256 | `XpAtLeast` gates on the level alone, whatever its offset |
| ConditionRuntime.LeafKeepsArguments | SentinelQuesting/compiler/src/condition.rs:226-258 | apart from `XpAtLeast`, two accepted leaves that build the same condition are the same call |
| ConditionOutcome.ParseConditionIff | SentinelQuesting/compiler/src/condition.rs:211-278 | the runtime parser accepts a text if and only if it spells a derivation within the token and depth guards whose leaves are known and in range |
| ConditionOutcome.FirstBadLeafIsReported | SentinelQuesting/compiler/src/condition.rs:217-260 | a well-formed text that is refused reports the first refused leaf in text order |
| ConditionRendering.LexRender | SentinelQuesting/compiler/src/condition.rs:80-114 | lexing undoes rendering on every token list that keeps words apart, signed i64 numbers and NOT included |
| ConditionRendering.ReadNumber | SentinelQuesting/compiler/src/condition.rs:92-103 | the decimal text of every i64 is read back as that number |
| ConditionPrinter.PrintLexes | SentinelQuesting/compiler/src/condition.rs:80-114 | printed trees lex to the tokens of their derivation and need no trimming |
| ConditionPrinter.PrintParseTree | SentinelQuesting/compiler/src/condition.rs:265-278 | a canonical tree comes back from its text exactly when the text fits both guards |
| ConditionPrinter.PrintParseCondition | SentinelQuesting/compiler/src/condition.rs:211-278 | a canonical runtime condition comes back from its text exactly when the text fits both guards |
| ConditionPrinter.ParsedIsCanonical | SentinelQuesting/compiler/src/condition.rs:217-260 | everything the parser returns is canonical, so the round trip covers its whole range |
| HistoryMachine.StepOnTimeline | SentinelQuesting/editor/src/history.rs:358-409 | every operation keeps the documents of both stacks on one timeline, trimming included, and keeps the depth bound |
| HistoryMachine.UndoMovesBack | SentinelQuesting/editor/src/history.rs:372-379 | a non-empty undo succeeds and shows the previous document of the timeline |
| HistoryMachine.RedoMovesForward | SentinelQuesting/editor/src/history.rs:382-388 | a non-empty redo succeeds and shows the next document of the timeline |
| HistoryMachine.UndoThenRedo | SentinelQuesting/editor/src/history.rs:372-388 | redo takes an undo back: document and both stacks |
| HistoryMachine.RedoThenUndo | SentinelQuesting/editor/src/history.rs:372-388 | undo takes a redo back |
| HistoryMachine.RunOnTimeline | SentinelQuesting/editor/src/history.rs:358-409 | the timeline and the depth bound hold after every run |
| HistoryMachine.UndoRestores | SentinelQuesting/editor/src/history.rs:358-379 | after any run, executing and undoing a command gives the document back, whatever was undone before |
| HistoryMachine.TimeTravel | SentinelQuesting/editor/src/history.rs:372-388 | n undos show the document n places earlier, and n redos after them restore the whole state |
| HistoryMachine.RefusedSteps | SentinelQuesting/editor/src/history.rs:358-388 | a refused operation leaves the document alone; a refused execute changes nothing, a refused undo or redo loses exactly the command it popped |
| HistoryMachine.ExecutesKept | SentinelQuesting/editor/src/history.rs:358-369 | after commands that all apply, exactly the newest ones that fit a positive limit can be undone, and none redone |
| ProjectHistory.InverseExactIff | SentinelQuesting/editor/src/history.rs:34-309 | a command that applies is undone exactly by its inverse if and only if its snapshot is the document's and, for a removed action, all later actions equal it |
| ProjectHistory.ProjectExact | SentinelQuesting/editor/src/history.rs:34-309 | on faithful commands every inverse applies and is exact, and redoing is faithful again |
| ProjectEffects.AppliesIff | SentinelQuesting/editor/src/history.rs:34-309 | each of the eight commands takes a project to another exactly when that one differs as its effect says, index by index: what is inserted, dropped, replaced, or moved to its new place with the ones between shifted |
| ProjectEffects.RefusedIff | SentinelQuesting/editor/src/history.rs:34-309 | a command is refused exactly when an index it names is out of range, with the error that shows the index and the length; removing the last action of none is refused as index 0 |
| ProjectHistory.HandlerRemovalExactIff | SentinelQuesting/editor/src/server.rs:537-573 | a removal as the server builds it applies, and is undone exactly if and only if every later action equals the removed one |
| ProjectHistory.MiddleRemovalIsNotUndone | SentinelQuesting/editor/src/history.rs:221-230 | a concrete removal from the middle that undo does not restore |
| ProjectHistory.MoveAndBack | SentinelQuesting/editor/src/history.rs:127-151 | moving an operation and moving it back by swapped indices is the identity |
| ProjectHistory.ProjectRuns | SentinelQuesting/editor/src/history.rs:358-388 | after every faithful run: undo and redo fail only when empty, each takes the other back, and both stacks together stay within a positive limit |
| ProjectHistory.ProjectReplays | SentinelQuesting/editor/src/history.rs:358-388 | after every faithful run there is a base project from which replaying the undo stack gives the current project and replaying the redo stack on it succeeds |
| ProjectShapes.ShapeRefines | SentinelQuesting/editor/src/history.rs:34-309 | whether a command is refused, and with what error, depends only on the number of actions of each operation |
| ProjectShapes.HandlerRuns | SentinelQuesting/editor/src/server.rs:374-678 | after every run of commands as the server builds them, middle removals included: the depth bound holds, undo and redo fail only when empty, and each takes the other back in both stacks and in the number of actions of every operation |
| ProjectHistory.Project.Perform | SentinelQuesting/editor/src/history.rs:34-305 | applying a command to the project in place gives the document of the specification, and leaves it alone on error |
| ProjectHistory.CommandHistory.Execute | SentinelQuesting/editor/src/history.rs:358-369 | in-place execute is the machine's step: apply, push, clear redo, drop the oldest beyond the limit |
| ProjectHistory.CommandHistory.Undo | SentinelQuesting/editor/src/history.rs:372-379 | in-place undo is the machine's step; a refused inverse loses the popped command |
| ProjectHistory.CommandHistory.Redo | SentinelQuesting/editor/src/history.rs:382-388 | in-place redo is the machine's step |
| ProjectHistory.CommandHistory.Clear | SentinelQuesting/editor/src/history.rs:406-409 | clearing empties both stacks and nothing else |
| KeyedList.FindPosition | SentinelQuesting/editor/src/campaign_history.rs:78-82 | the scan finds the first entry with the id, or nothing if there is none |
| KeyedList.PushRefines | SentinelQuesting/editor/src/campaign_history.rs:39-47 | pushing an entry with a fresh id is inserting it in the map |
| KeyedList.RemoveRefines | SentinelQuesting/editor/src/campaign_history.rs:78-84 | removing the entry at a position is removing its id from the map |
| KeyedList.UpdateRefines | SentinelQuesting/editor/src/campaign_history.rs:117-123 | overwriting an entry in place is replacing its id in the map, also when the id changes to a fresh one |
| KeyedList.SameMapIffPermutation | SentinelQuesting/editor/src/campaign_history.rs:38-323 | lists with unique ids denote the same map exactly when they are permutations of each other |
| CampaignHistory.MapInverse | SentinelQuesting/editor/src/campaign_history.rs:38-323 | on the map campaign every faithful command is undone exactly by its inverse, which is faithful too |
| CampaignEffects.AppliesIff | SentinelQuesting/editor/src/campaign_history.rs:38-323 | each of the nine commands takes a campaign to another exactly when that one differs as its effect says: appended at the end, or the first entry with the id dropped or replaced, and all else the same |
| CampaignEffects.RefusedIff | SentinelQuesting/editor/src/campaign_history.rs:38-323 | a command is refused exactly when a graph, node, edge or condition it needs is missing, or the id of a graph or condition it adds is taken, with the error that names the id |
| CampaignHistory.CommandRefines | SentinelQuesting/editor/src/campaign_history.rs:38-323 | a faithful command on the lists has the same outcome as on the maps and keeps ids unique |
| CampaignHistory.StepRefines | SentinelQuesting/editor/src/campaign_history.rs:372-412 | one execute, undo or redo of the list history is that of the map history |
| CampaignHistory.RunRefines | SentinelQuesting/editor/src/campaign_history.rs:372-412 | the same over every run |
| CampaignHistory.RefusalsAgree | SentinelQuesting/editor/src/campaign_history.rs:38-323 | whether a command is refused depends only on which ids are present |
| CampaignHistory.CampaignRuns | SentinelQuesting/editor/src/campaign_history.rs:372-412 | after every faithful run: ids unique, depth bound, undo and redo fail only when empty and take each other back up to list order |
| CampaignHistory.CampaignUndoRestores | SentinelQuesting/editor/src/campaign_history.rs:372-400 | after every faithful run, executing and undoing a command restores the campaign up to list order |
| CampaignHistory.OrderNeverMatters | SentinelQuesting/editor/src/campaign_history.rs:372-412 | campaigns that differ only in list order report the same outcome for every operation of a faithful run and stay equal up to order |
| CampaignUndo.AbsIsUpToOrder | SentinelQuesting/editor/src/campaign_history.rs:38-323 | two campaigns with unique ids have equal maps if and only if their graphs are the same up to order, each with the same nodes and edges up to order, and so are their conditions |
| CampaignUndo.UndoIff | SentinelQuesting/editor/src/campaign_history.rs:38-323 | on a campaign with unique ids the inverse of a command that applies applies too, and it restores graphs, nodes, edges and conditions up to order if and only if added ids were free or taken by an equal element, no earlier node but an equal one had the new id of a replaced node, and snapshots were current |
| CampaignUndo.GraphUndoIff | SentinelQuesting/editor/src/campaign_history.rs:38-229 | the same for the five commands inside one graph, duplicate ids included |
| CampaignUndo.DuplicateNodeIsNotUndone | SentinelQuesting/editor/src/campaign_history.rs:38-91 | a concrete node added under a taken id, on which undo removes the older node |
| CampaignUndo.DuplicateEdgeIsNotUndone | SentinelQuesting/editor/src/campaign_handlers.rs:372-407 | a concrete edge added under a taken id, on which undo removes the older edge |
| CampaignUndo.TakenOverIdIsNotUndone | SentinelQuesting/editor/src/campaign_handlers.rs:256-312 | a concrete node that takes over the id of an earlier node, on which undo overwrites that one |
| CampaignHistory.Campaign.Perform | SentinelQuesting/editor/src/campaign_history.rs:38-311 | applying a command in place gives the campaign of the specification, and leaves it alone on error |
| CampaignHistory.CommandHistory.Execute | SentinelQuesting/editor/src/campaign_history.rs:372-387 | in-place execute is the machine's step |
| CampaignHistory.CommandHistory.Undo | SentinelQuesting/editor/src/campaign_history.rs:390-400 | in-place undo is the machine's step |
| CampaignHistory.CommandHistory.Redo | SentinelQuesting/editor/src/campaign_history.rs:403-412 | in-place redo is the machine's step |
| Tsp.FlipLength | SentinelNavServer/src/pipeline/tsp.rs:49-52 | on a symmetric matrix the two-edge test measures exactly how reversing `order[i..j]` changes the path length |
| Tsp.ReversedLength | SentinelNavServer/src/pipeline/tsp.rs:55 | reversing a path keeps its length |
| Tsp.ReverseRange | SentinelNavServer/src/pipeline/tsp.rs:55 | the in-place reversal mirrors the range and keeps the rest |
| Tsp.TryFlip | SentinelNavServer/src/pipeline/tsp.rs:49-57 | an accepted reversal shortens the path by more than 0.01; a rejected one would not, and changes nothing |
| Tsp.TwoOpt | SentinelNavServer/src/pipeline/tsp.rs:43-60 | terminates after at most 100 times the initial length reversals, ends locally optimal, keeps the nodes and both ends |
| Tsp.PickNext | SentinelNavServer/src/pipeline/tsp.rs:23-34 | the chosen node is the first unvisited one of least distance divided by weight, compared multiplied out, and its distance is below `f32::MAX` times its weight; if none is chosen no unvisited node is |
| Tsp.NearestNeighbour | SentinelNavServer/src/pipeline/tsp.rs:15-41 | every node of the order was the first of least distance divided by weight among the unvisited ones when it was chosen, and the order ends only when all are visited or no distance is below `f32::MAX` times the weight |
| Tsp.GreedyVisitsAll | SentinelNavServer/src/pipeline/tsp.rs:22-41 | with all distances below `f32::MAX` times the weight of their target the greedy order is a permutation of all nodes |
| Tsp.SolveTsp | SentinelNavServer/src/pipeline/tsp.rs:9-63 | the order starts at node 0, is locally optimal, is a rearrangement of a greedy order no longer than it, and is a tour when all distances are below `f32::MAX` times the weight of their target |
| Tsp.SolvedTour | SentinelNavServer/src/pipeline/tsp.rs:15-63 | rearranging a greedy order with its ends in place keeps node 0 first and keeps it a tour |
| Tsp.FillMatrix | SentinelNavServer/src/services/routing.rs:107-133 | the filled matrix is symmetric with a zero diagonal, holds each pair's measure, and is non-negative when the measures are |
| Tsp.Rotate | SentinelNavServer/src/routes/intelligence.rs:380-385 | the order is rotated to the first position of the start node, and unchanged if it has none |
| Tsp.RotatedTour | SentinelNavServer/src/routes/intelligence.rs:378-388 | the rotation of a tour is a tour, and the start node is in it |
| Routing.PathfindLegs | SentinelNavServer/src/services/routing.rs:23-70 | the loop returns the first failing leg's error or the route made of all legs |
| Routing.LegsMeaning | SentinelNavServer/src/services/routing.rs:41-61 | leg i is what the finder returns from stop i to stop i + 1, and a failure is that of the first leg that fails, all legs before it found |
| Routing.RouteFlags | SentinelNavServer/src/services/routing.rs:39-68 | when every leg is found, the route is partial exactly when what the finder returns for some leg is, and it lists their distances in order |
| Routing.BoundariesCutLegs | SentinelNavServer/src/services/routing.rs:37-60 | boundaries start at 0, never decrease, end at the waypoint count, and slice k is leg k without its shared first point |
| Routing.LegsRecoverable | SentinelNavServer/src/services/routing.rs:53-60 | when each leg starts where the one before ended, every leg is recovered from waypoints and boundaries |
| Routing.JoinedLength | SentinelNavServer/src/pipeline/post_process.rs:11-16 | the length of the joined path is the sum of the lengths of the legs |
| Routing.TotalIsLength | SentinelNavServer/src/services/routing.rs:50-51 | with legs that report their own length, the total distance is the length of the joined path |
| Routing.LegsFailEarly | SentinelNavServer/src/services/routing.rs:41-44 | once a leg fails the outcome is that failure whatever stops follow |
| Routing.TspOptimize | SentinelNavServer/src/services/routing.rs:83-142 | fewer than two stops are refused; otherwise the legs follow a locally optimal order from the first stop, a tour when all distances are below `f32::MAX` |
| CommandParser.SkipString | mcp/lx-debug-server/parser.js:15-24 | the index loop ends one past the closing quote, escapes skipped, or past the end |
| CommandParser.FindClose | mcp/lx-debug-server/parser.js:30-47 | the index loop ends one past the bracket that closes the one at its start, or at the end |
| CommandParser.FindBareEnd | mcp/lx-debug-server/parser.js:107-121 | the index loop ends at the first comma or unmatched closer outside brackets and literals |
| CommandParser.UnescapeBody | mcp/lx-debug-server/parser.js:83-91 | the loop drops each backslash that has a character after it and keeps that character |
| CommandParser.ParseToken | mcp/lx-debug-server/parser.js:123-131 | a trimmed bare token becomes a boolean, nil, number, nested call or string, in that order of tests; CommandNumbers.NumbersExactly says which are numbers |
| CommandParser.ParseFirstArg | mcp/lx-debug-server/parser.js:77-132 | one turn of the argument loop reads the first argument of the rest and advances, or is stuck |
| CommandParser.ParseArgs | mcp/lx-debug-server/parser.js:67-135 | the argument loop computes the arguments of the trimmed text |
| CommandParser.ParseFirstStep | mcp/lx-debug-server/parser.js:145-165 | one turn of the chain loop reads the first step of the rest and advances |
| CommandParser.ParseChain | mcp/lx-debug-server/parser.js:140-169 | the chain loop computes the steps of the text up to the first non-delimiter |
| CommandParser.ParseTrimmedCommand | mcp/lx-debug-server/parser.js:177-202 | path, arguments and chain are cut at the first `(` and its close; the mutual recursion terminates on length |
| CommandParser.ParseCommand | mcp/lx-debug-server/parser.js:174-203 | the entry point on an untrimmed text |
| CommandNumbers.NumbersExactly | mcp/lx-debug-server/parser.js:127 | a token is read as a number exactly when it is the text of a number literal built from its parts: a sign or none, whole digits, fraction, signed exponent, or `Infinity`, or a radix prefix and its digits; the number keeps the text |
| Brackets.DepthConcat | mcp/lx-debug-server/parser.js:30-47 | bracket depth composes over concatenation, literals skipped |
| Brackets.ClosePasses | mcp/lx-debug-server/parser.js:30-47 | the scan for a closing bracket passes over any text with a depth, whatever follows it |
| Brackets.BarePasses | mcp/lx-debug-server/parser.js:107-121 | the scan for the end of a token passes over any text with a depth and no outer comma |
| Brackets.Wrapped | mcp/lx-debug-server/parser.js:30-47 | brackets around a balanced text balance, and the scan from the first ends just after the second |
| CommandRoundTrip.EscapeRoundTrip | mcp/lx-debug-server/parser.js:83-91 | unescaping undoes escaping for every string and quote |
| CommandRoundTrip.EscapedCloses | mcp/lx-debug-server/parser.js:15-24 | an escaped string closes exactly at its own closing quote |
| CommandRoundTrip.NumericIsPlain | mcp/lx-debug-server/parser.js:127 | no text that counts as a number holds a space, comma, quote or bracket |
| CommandRoundTrip.ArgParses | mcp/lx-debug-server/parser.js:77-132 | the text of any argument, followed by a comma or nothing, is read as that argument and its whole length |
| CommandRoundTrip.ArgsParse | mcp/lx-debug-server/parser.js:67-135 | the text of an argument list, with any gap of a comma and separators, is read as that list |
| CommandRoundTrip.ChainParses | mcp/lx-debug-server/parser.js:140-169 | the text of a chain of called steps is read as that chain |
| CommandRoundTrip.CallParses | mcp/lx-debug-server/parser.js:174-203 | the text of a call tree is read as that tree |
| CommandRoundTrip.CommandRoundTrips | mcp/lx-debug-server/parser.js:174-203 | for every well-formed call tree, with paths of several segments, number literals from their parts, an uncalled last step, any blanks and gaps, and anything behind it that is no part of a call, parsing the printed text returns the tree |
| CommandRoundTrip.PathParses | mcp/lx-debug-server/parser.js:177-196 | a path that is not called is a command without arguments, by method exactly when a segment is joined by a colon, with its leading identifier as root or `core` |
| CommandRoundTrip.UnclosedLiteral | mcp/lx-debug-server/parser.js:79-95 | a literal without its closing quote loses its last character, and a lone quote is read as that quote |
| CommandRoundTrip.DanglingBackslash | mcp/lx-debug-server/parser.js:79-95 | a backslash that ends the text of an unclosed literal is kept as a backslash |
| CommandRoundTrip.ArgumentsRoundTrip | mcp/lx-debug-server/parser.js:67-135 | the same for argument lists on their own |
| TameText.CloseSplits | mcp/lx-debug-server/parser.js:30-47 | in a tame text the closing scan cuts off a balanced part and leaves a tame rest |
| TameText.CloseSettles | mcp/lx-debug-server/parser.js:30-47 | the same in a text that leaves no bracket open: the part cut off is balanced, whatever stray closers follow |
| StrayText.CloseCuts | mcp/lx-debug-server/parser.js:30-47 | in every text, what the closing scan cuts out holds no stray closer, also when it finds no end and the last character is dropped |
| CommandTermination.CallsNeverLoop | mcp/lx-debug-server/parser.js:174-203 | for every text, parsing a call never loops |
| CommandTermination.SettledReturns | mcp/lx-debug-server/parser.js:174-203 | every text that leaves no bracket open and whose literals hold no `(` is parsed as a call, stray closers included |
| CommandTermination.BalancedReturns | mcp/lx-debug-server/parser.js:67-203 | every balanced text whose literals hold no `(` is parsed, as a call and as an argument list |
| CommandTermination.QuotedParenOverflows | mcp/lx-debug-server/parser.js:177-186 | a balanced text with a quoted `(` before the call that overflows the stack |
| CommandTermination.CutOffCallOverflows | mcp/lx-debug-server/parser.js:184-193 | every call cut off right after its `(` overflows the stack, because the swapped substring bounds return the parenthesis itself |
| CommandTermination.UnmatchedCloserSticks | mcp/lx-debug-server/parser.js:67-132 | `parseArgs` called directly never returns on a literal-free text in which a closer has no bracket to close |
| OpenCalls.OpenArgsDepth | mcp/lx-debug-server/parser.js:67-132 | every call a literal-free argument text leaves open costs a bracket that is open at its end |
| CommandOverflow.ArgsOverflowIff | mcp/lx-debug-server/parser.js:67-132 | a literal-free argument text without stray closers overflows if and only if it can be cut after a parenthesis that leaves k + 1 calls open with k characters behind it that are not blank |
| CommandOverflow.BodyOverflowsIff | mcp/lx-debug-server/parser.js:177-202 | the same for what follows the parenthesis of a call or chain step, closed or not |
| CommandOverflow.CallTextOverflowsIff | mcp/lx-debug-server/parser.js:174-203 | every literal-free text overflows the stack of `parseCommand` if and only if it can be cut, and is parsed otherwise |
| CommandOverflow.ArgumentTextReturnsIff | mcp/lx-debug-server/parser.js:67-135 | every literal-free text is parsed by `parseArgs` if and only if no closer in it is stray and it cannot be cut |
| ParenTexts.ParensOverflowIff | mcp/lx-debug-server/parser.js:174-203 | a text of words, blanks and parentheses overflows if and only if at some `(` no call has been closed and as many characters that are not blank follow as parentheses precede |
| GuideBlocks.OpensApart | SentinelQuesting/importer/src/guide_splitter.rs:171-177 | two occurrences of the OPEN marker never overlap |
| GuideBlocks.MarkersApart | SentinelQuesting/importer/src/guide_splitter.rs:171-184 | an OPEN and a CLOSE marker never overlap |
| GuideBlocks.OpensAreAll | SentinelQuesting/importer/src/guide_splitter.rs:175-176 | the scan's list of OPEN occurrences holds every one once, in source order |
| GuideBlocks.VerdictsInOrder | SentinelQuesting/importer/src/guide_splitter.rs:180-201 | every OPEN gets its own report in order, except those after an unterminated block |
| GuideBlocks.OkIff | SentinelQuesting/importer/src/guide_splitter.rs:180-199 | an OPEN is reported as a block if and only if some CLOSE follows it before any other OPEN |
| GuideBlocks.VerdictSays | SentinelQuesting/importer/src/guide_splitter.rs:180-201 | the report on an OPEN is what the text says, with no use of the search: the block up to the first CLOSE with the newlines before it, or the line of the nested OPEN, or unterminated |
| GuideBlocks.SaysOnce | SentinelQuesting/importer/src/guide_splitter.rs:180-201 | a text says only one thing about an OPEN |
| GuideBlocks.BlocksDisjoint | SentinelQuesting/importer/src/guide_splitter.rs:184-200 | a block ends before the next OPEN starts, so reported blocks are disjoint |
| GuideBlocks.ScanStep | SentinelQuesting/importer/src/guide_splitter.rs:175-201 | one turn of the scan reports the next OPEN and resumes without losing an occurrence |
| GuideBlocks.ExtractGuideBlocks | SentinelQuesting/importer/src/guide_splitter.rs:170-203 | the scan reports every OPEN exactly once in source order, up to and including the first unterminated one: Ok if and only if the next CLOSE comes before the next OPEN |
| GuideBlocks.ResumeKeepsOpens | SentinelQuesting/importer/src/guide_splitter.rs:186-200 | jumping to the nested OPEN or past the CLOSE skips no occurrence of OPEN |
| GuideBlocks.CountNewlines | SentinelQuesting/importer/src/guide_splitter.rs:178 | line numbers count the newlines before a marker |
| GuideBlocks.NewlinesAreCounted | SentinelQuesting/importer/src/guide_splitter.rs:178 | the count is the number of positions that hold a newline |
| GuideBlocks.BundleVerdicts | SentinelQuesting/importer/src/guide_splitter.rs:170-203 | extraction from the middle of a bundle returns its blocks with their line offsets |
| GuideBlocks.ExtractInvertsBundle | SentinelQuesting/importer/src/guide_splitter.rs:170-203 | wrapping marker-free bodies with OPEN-free separators and extracting returns exactly those blocks |
| GuideLines.Split | SentinelQuesting/importer/src/guide_splitter.rs:71-127 | splitting a block finds its body and start line, or reports the missing marker |
| GuideLines.StepMarkerIff | SentinelQuesting/importer/src/guide_splitter.rs:15-18 | a step marker is white space and then `step`, alone or in front of a blank, a tab or `<` |
| GuideLines.SplitNumbers | SentinelQuesting/importer/src/guide_splitter.rs:71-127 | for any text with an OPEN and a CLOSE behind it, splitting reports exactly the lines between the first of each that are not blank, every one with its 1-based number in the text, numbers strictly increasing over headers and body lines |
| GuideLines.SplitFailsIff | SentinelQuesting/importer/src/guide_splitter.rs:106-115 | splitting reports a missing guide exactly when the text has no OPEN, and succeeds exactly when a CLOSE follows the first OPEN |
| GuideLines.SplitLines | SentinelQuesting/importer/src/guide_splitter.rs:76-101 | the loop with its `seen_step` flag splits the non-blank lines at the first step marker |
| GuideLines.SplitPartitions | SentinelQuesting/importer/src/guide_splitter.rs:80-101 | headers followed by body lines are the non-blank lines in order, no header is a step marker, the body is empty or starts with one |
| GuideLines.NonBlankKeeps | SentinelQuesting/importer/src/guide_splitter.rs:83-85 | exactly the lines that are not all white space are kept |
| GuideLines.BlockSplits | SentinelQuesting/importer/src/guide_splitter.rs:106-127 | splitting an extracted block always succeeds, on the text between its own markers |
| GuideLines.AbsoluteLineNumbers | SentinelQuesting/importer/src/guide_splitter.rs:122-143 | splitting an extracted block reports a line if and only if it is a line of the bundle inside the block body that is not blank, and line offset plus reported number is its true 1-based number in the bundle; the numbers are strictly increasing |
| LikeEscape.Escape | SentinelQueryServer/src/search.rs:86-95 | the loop computes the escaped term |
| LikeEscape.ExactPattern | SentinelQueryServer/src/search.rs:86-95 | the escaped term matches exactly the strings equal to the term under the case folding |
| LikeEscape.PrefixPattern | SentinelQueryServer/src/db.rs:1397-1398 | with a trailing `%` it matches exactly the strings that start with the term |
| LikeEscape.AnywherePattern | SentinelQueryServer/src/db.rs:1397-1399 | between two `%` it matches exactly the strings that contain the term |
| LikeEscape.RankMeaning | SentinelQueryServer/src/db.rs:1412-1416 | the three rank tiers nest: equal, prefix, contains |
| Interleave.FillBuckets | SentinelQueryServer/src/db.rs:1798-1811 | every bucket holds the sorted hits of its tier and kind |
| Interleave.StableSortSorts | SentinelQueryServer/src/db.rs:1803-1811 | sorting orders a bucket by name length and id and permutes it |
| Interleave.EmitTier | SentinelQueryServer/src/db.rs:1815-1832 | the round-robin loop of one tier emits its turns up to the limit |
| Interleave.InterleaveByKind | SentinelQueryServer/src/db.rs:1795-1835 | the three-level loop returns the limit-prefix of the full page |
| Interleave.FullPageIsPermutation | SentinelQueryServer/src/db.rs:1813-1834 | the unlimited page is a permutation of the hits |
| Interleave.PageIsFair | SentinelQueryServer/src/db.rs:1814-1832 | a page has length min(limit, total), shows earlier tiers completely, later ones not at all, and in its last tier a prefix of every bucket with no kind more than one hit behind unless exhausted |
| Interleave.PageInTierOrder | SentinelQueryServer/src/db.rs:1814-1832 | a hit of a lower tier never precedes one of a higher tier |
| PageOrder.PageInOrder | SentinelQueryServer/src/db.rs:1813-1834 | on every page the hits stand in score classes, best first, and within a class come the first hits of all kinds in the order npc, quest, item, object, area, then their second ones, and so on |
| PageOrder.RivalsInOrder | SentinelQueryServer/src/db.rs:1803-1811 | on every page, of two hits of the same kind and score class the one with the shorter name comes first, and of equally long names the smaller id |
| PageOrder.TiesStay | SentinelQueryServer/src/db.rs:1803-1811 | hits of one kind, score class, name length and id stay in the order in which they were found |
| Interleave.LimitsNest | SentinelQueryServer/src/db.rs:1819-1821 | the page for a limit is the prefix of the page for any larger limit |
| Avoidance.NavMesh.SetPolyArea | SentinelNavServer/crates/detour/src/mesh.rs:182-199 | sets one area if it is below 64 and the polygon can be set, and otherwise changes nothing |
| Avoidance.AreaRestoreGuard.StampPolygon | SentinelNavServer/src/pipeline/avoidance.rs:44-54 | records the original area after setting the new one; a failure records and changes nothing |
| Avoidance.AreaRestoreGuard.Drop | SentinelNavServer/src/pipeline/avoidance.rs:57-65 | dropping the guard restores the area map it was made on |
| Avoidance.StampMeaning | SentinelNavServer/src/pipeline/avoidance.rs:85-122 | stamping fails exactly when it meets a polygon that cannot be set, and otherwise stamps exactly the target polygons |
| Avoidance.TargetsMeaning | SentinelNavServer/src/pipeline/avoidance.rs:85-122 | a polygon is a target exactly when the query of some zone finds it and answers that it lies within |
| Avoidance.StampZone | SentinelNavServer/src/pipeline/avoidance.rs:105-121 | the polygon loop stamps what its zone asks for, repeated polygons and query failures included |
| Avoidance.StampZones | SentinelNavServer/src/pipeline/avoidance.rs:85-122 | the zone loop stamps the targets of all zones, overlaps included, and keeps the guard's record on an early error |
| Avoidance.PathfindWithAvoidance | SentinelNavServer/src/pipeline/avoidance.rs:153-199 | the search sees exactly the stamped map, and the map is as before on every way out |
| AvoidanceProtocol.LockStep | SentinelNavServer/src/pipeline/avoidance.rs:214-229 | every step keeps the lock discipline: no reader while a writer holds the lock, at most one writer |
| AvoidanceProtocol.AreasStep | SentinelNavServer/src/pipeline/avoidance.rs:44-65 | every step keeps the area map equal to the base up to what the writer has yet to restore |
| AvoidanceProtocol.TargetsStep | SentinelNavServer/src/pipeline/avoidance.rs:85-122 | every step keeps the map of a stamping client equal to the base map with the targets stamped that it has dealt with |
| AvoidanceProtocol.RunKeepsInvariant | SentinelNavServer/src/pipeline/avoidance.rs:205-261 | the invariant holds after every run of any number of clients |
| AvoidanceProtocol.SearchesSeeTheRightMap | SentinelNavServer/src/pipeline/avoidance.rs:205-261 | in every interleaving every read-locked search sees the base map, every avoidance search the base map with exactly the targets stamped that its client asked for, and the map is base whenever no writer holds the lock |
| AvoidanceProtocol.RestoringFinishes | SentinelNavServer/src/pipeline/avoidance.rs:57-65 | from every reachable state a restoring writer can finish, leaving the base map and a free lock |
| AvoidanceProtocol.WriterFinishes | SentinelNavServer/src/pipeline/avoidance.rs:205-261 | a client that holds the lock for writing, in any phase, can go on to release it over the base map |
| Geometry.LerpDistance | SentinelNavServer/crates/detour/src/types.rs:58-63 | distances along a segment are proportional to the parameter |
| StringPull.MaxDeviation | SentinelNavServer/src/pipeline/string_pull.rs:36-70 | the loop returns the largest deviation of the skipped waypoints, and 0 if there is none |
| StringPull.CumulativeHeadingChange | SentinelNavServer/src/pipeline/string_pull.rs:77-95 | the loop returns the sum of the turns at the skipped waypoints |
| StringPull.HeadingGrows | SentinelNavServer/src/pipeline/string_pull.rs:77-95 | the cumulative turn never decreases in the target |
| StringPull.ShortcutNearWall | SentinelNavServer/src/pipeline/string_pull.rs:99-131 | true exactly when some sample of the line is nearer to a wall than the threshold |
| StringPull.FurthestIsShortcut | SentinelNavServer/src/pipeline/string_pull.rs:177-221 | a waypoint that is skipped to passes the raycast, deviation, heading and wall guards |
| StringPull.FurthestIsLast | SentinelNavServer/src/pipeline/string_pull.rs:177-221 | up to the waypoint settled on nothing stops the scan, and every shortcut beyond it lies behind a stop: a blocked line, or a straight enough one that turns too much or comes too close to a wall |
| StringPull.BreakLosesNothing | SentinelNavServer/src/pipeline/string_pull.rs:189-193 | stopping at the first turn over the limit finds the same waypoint as scanning on |
| StringPull.ScanFrom | SentinelNavServer/src/pipeline/string_pull.rs:175-221 | the target loop with its breaks computes the furthest waypoint of the specification, which StringPull.FurthestIsLast describes |
| StringPull.StringPullPath | SentinelNavServer/src/pipeline/string_pull.rs:142-228 | the outer loop picks the waypoints kept one after the other, which StringPull.PulledPath describes |
| StringPull.PulledPath | SentinelNavServer/src/pipeline/string_pull.rs:142-228 | for any oracle the result is the waypoints at strictly increasing indices from first to last; each skip passes all guards and is the last shortcut in front of the first stop |
| PullGuards.DeviationIsDistance | SentinelNavServer/src/pipeline/string_pull.rs:57-68 | the deviation of a waypoint is its distance from the nearest point of the segment, ends included |
| PullGuards.TurnIsShortest | SentinelNavServer/src/pipeline/string_pull.rs:83-92 | the turn at a waypoint is the least angle that leads from one heading to the next, full turns added or taken away |
| PullGuards.HeadingSplits | SentinelNavServer/src/pipeline/string_pull.rs:77-95 | the heading change over a stretch is that up to any waypoint inside, the turn there, and that from there on; a single segment has none |
| PullGuards.SamplesAreDense | SentinelNavServer/src/pipeline/string_pull.rs:106-119 | a line is checked for walls at least once, and neighbouring samples, its ends included, are at most one unit apart |
| PostProcess.DensifySegments | SentinelNavServer/src/pipeline/post_process.rs:30-73 | the loops insert the projected split points of every long segment, for every segment limit, 0 included |
| PostProcess.DensifiedEnds | SentinelNavServer/src/pipeline/post_process.rs:40-70 | densifying keeps the first and last waypoint |
| PostProcess.DensifiedKeeps | SentinelNavServer/src/pipeline/post_process.rs:43-70 | densifying keeps its input as a subsequence |
| PostProcess.DensifiedGaps | SentinelNavServer/src/pipeline/post_process.rs:48-67 | with projections that return the points themselves every gap is at most the segment limit |
| PostProcess.MidsAreProjected | SentinelNavServer/src/pipeline/post_process.rs:51-66 | what is inserted into a segment are the projections of its evenly spaced split points that have one, and nothing else |
| PostProcess.SplitsFewest | SentinelNavServer/src/pipeline/post_process.rs:51 | one split less would leave a gap above the limit |
| WallClearance.CollectSamples | SentinelNavServer/src/pipeline/wall_clearance.rs:73-102 | the three sampling loops terminate and collect the dense, normal and dense parameters |
| WallClearance.SamplesInside | SentinelNavServer/src/pipeline/wall_clearance.rs:78-102 | sample parameters are strictly increasing and strictly between 0 and 1 |
| ClearedPath.SamplesApart | SentinelNavServer/src/pipeline/wall_clearance.rs:73-102 | along a segment the next sample is half a unit away within the clearance of the start, at most three tenths of the segment, and at most three quarters as close to the end; in between it is the clearance away, at least one unit; and it is never farther than that and half a unit |
| WallClearance.StepsAre | SentinelNavServer/src/pipeline/wall_clearance.rs:84-102 | a sampling loop visits exactly the multiples of its spacing from its start on that are below its limit |
| WallClearance.PushClears | SentinelNavServer/src/pipeline/wall_clearance.rs:124-129 | off a straight wall with a unit normal, the push target has exactly the clearance, at the same height and no farther than what was lacking |
| WallClearance.OffsetIff | SentinelNavServer/src/pipeline/wall_clearance.rs:104-152 | a sample inserts a point exactly when it is on the navmesh, nearer to a wall than the clearance, and the push snaps to that point nearby with clear raycasts both ways |
| WallClearance.WaypointMoves | SentinelNavServer/src/pipeline/wall_clearance.rs:179-226 | a waypoint moves exactly to where such a push leads when it is no closer to another wall there, and stays otherwise |
| ClearedPath.OffsetsInOrder | SentinelNavServer/src/pipeline/wall_clearance.rs:104-152 | a segment inserts one point for every sample that is pushed, in the order of the samples, and nothing else |
| ClearedPath.ClearedIsMade | SentinelNavServer/src/pipeline/wall_clearance.rs:45-175 | the cleared path is the first waypoint, then for each segment what its samples insert, none below a hundredth of length, and its end: the moved waypoint, or exactly the last one |
| WallClearance.ApplyWallClearance | SentinelNavServer/src/pipeline/wall_clearance.rs:45-175 | the segment loop inserts the reachable offsets of near-wall samples and pushes intermediate waypoints |
| WallClearance.ClearedKeepsEnds | SentinelNavServer/src/pipeline/wall_clearance.rs:58-59 | clearance keeps the first and last waypoint exactly |
| Pathfinding.PostProcessPath | SentinelNavServer/src/pipeline/pathfinding.rs:263-299 | string pulling if asked for, then densifying, then clearance if positive, in that order; for any oracle it keeps both ends, and without clearance and with faithful projections it bounds all gaps |

## Left out

- Floating point: reals replace `f32`, so rounding, NaN and infinities are not modelled; `f32::MAX` is kept as the cutoff no greedy candidate may reach.
- Routing.TspOptimize: requires non-negative distances, which every measure in the source yields.
- Tsp.SolveTsp: requires positive weights and a symmetric non-negative matrix, as its callers build and check them; parsing the weight text is not part of this model.
- ProjectHistory.ProjectRuns: holds for faithful runs only; a removal from the middle is not faithful, and ProjectHistory.HandlerRemovalExactIff says exactly when it is. ProjectShapes.HandlerRuns covers every run the server can build, up to the contents of the operations.
- CampaignHistory.CampaignRuns: holds for faithful runs only, because AddNode, AddEdge and ModifyNode do not check ids; CampaignUndo.UndoIff says exactly when undoing one command works without that. The same holds for CampaignHistory.OrderNeverMatters.
- CommandTermination.BalancedReturns: sufficient, not necessary, as is CommandTermination.SettledReturns; CommandOverflow is exact for texts without literals, and texts with literals that leave a bracket open, or with a `(` inside a literal, are not characterised.
- CommandParser.ParseToken: a number keeps its literal text instead of its floating-point value, and text units are characters, not UTF-16 code units.
- Interleave.StableSortSorts: the library's stable sort is modelled by stable insertion.
- StringPull.PulledPath: the oracle does not depend on the stamped areas; avoidance and post-processing are modelled apart.
- AvoidanceProtocol.SearchesSeeTheRightMap: callers that search without taking the lock (`routes/path.rs:264`, `routes/intelligence.rs:555`) are outside the protocol; a blocked lock request is a step that is not yet enabled.
- Command descriptions, log messages and the wording of errors.
- The attributes of operations, actions, graphs, nodes and edges that no command looks at are one string each.
- The kernel condition sink and runtime conditions the DSL cannot produce; fusion covers every sink.
- `parse_step_gate` and `parse_step_conditions`: `strip_inline_dev_comment` is not part of this model.
- `isRawLua`, `hasOutsideString` and command ids in the call parser.
- Retries, corridors and random deviation of the path search, the path cache, corridor widths, and scoring of tactical routes.
- HTTP handlers, SQLite, file stores, configuration, the Detour library and its bindings.
- Catalog generators, directive tables, coverage tallies and range checks: finite tables that would only add easy members.
