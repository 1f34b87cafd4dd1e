# gk router core in Dafny

This project models the three pieces of the gk web router (Go) that hold its logic:

- **The route trie** (`gk/trie.go`, module `Trie` in `trie.dfy`). It is a per-method prefix tree of path segments.
  - `insert` walks one segment per level. It reuses the first child that is equal to the segment or is a wildcard, and otherwise appends a new node.
  - `search` is a depth-first, backtracking match over the eligible children in order. It stops at the end of the segments or at a `*` node. When several routes fit, it returns the first in pre-order (`FindFirst`), so the order of registration decides.
  - `travel` collects the nodes that carry a route pattern.
  - Nodes are a `class Node` updated in place. A ghost `Repr` set and a ghost `Model` hold the value of the subtree, a `Trie` datatype. Pure functions on that value (`Inserted`, `Find`, `TerminalPaths`) give the meaning of each method, and the lemmas state the properties of those functions.
- **The dispatch cursor** (`gk/context.go`, module `Dispatch` in `context.dfy`). `Next` runs the handler list through the integer `index`, re-entrantly, and `Fail` jumps the cursor to the end.
  - A handler is a script of steps: `Mark` (the handler's own work), `CallNext`, `Fail` and `Respond`.
  - A ghost trace records which handlers were entered, their work, and each `Fail`.
  - `NextSpec`, `LoopSpec` and `RunSpec` give the meaning of `Next` on a snapshot of the context. The `Context` class is proved against them.
- **Groups and middleware selection** (`gk/gk.go`, module `Gk` in `gk.dfy`).
  - `Engine` and `RouterGroup` are classes. `Group` appends to the engine's groups, and `Use` appends middlewares.
  - Route registration is recorded as a log.
  - `ServeHTTP` builds the middleware list by a raw string-prefix test on the request path. It is proved equal to a reference definition: keep the matching groups, then join their middlewares.

Two behaviours of the code are easy to misread:
- A literal segment inserted where a wildcard child already comes first does not create a literal sibling. Insert reuses the wildcard child (`WildcardShadowsLiteral`), so a later route that ends in that literal segment overwrites the pattern of the wildcard node; a longer one continues below it.
- After a `Fail`, the handlers waiting inside `Next` still run the rest of their own code (`FailSkipsLaterHandlers`). Only handlers at later positions are skipped.

## Model

| member | source | states |
|---|---|---|
| Trie.IsWildPart | gk/trie.go:59 | a part that makes a wildcard node is never empty |
| Trie.IsCatchAll | gk/trie.go:26 | a part that ends a search, one starting with '*', is also a wildcard part, so it is eligible for every segment |
| Trie.Leaf | gk/trie.go:59 | the node created for a segment has that part, no pattern and no children, and is well formed: isWild comes from the part's first character |
| Trie.FirstMatch | gk/trie.go:75-82 | the index of the first eligible child: that child is eligible, none before it is, and it is the number of children when none is |
| Trie.EligibleIndices | gk/trie.go:85-93 | exactly the indices of the eligible children, in strictly increasing order |
| Trie.FirstMatchHeadsEligible | gk/trie.go:75-93 | matchChild finds nothing exactly when matchChildren is empty, and otherwise returns the first child matchChildren lists |
| Trie.Node.MatchChild | gk/trie.go:75-82 | returns the first child whose part equals the segment or that is a wildcard, or null when there is none |
| Trie.Node.MatchChildren | gk/trie.go:85-93 | returns exactly the eligible children (literal equal or wildcard), each once, in child order |
| Trie.Node.constructor | gk/trie.go:59 | a new node has the given part, no pattern, no children, and isWild exactly when the part starts with ':' or '*' |
| Trie.Node.Root | gk/trie.go:10-15 | an empty node: no pattern, no part, not wild, no children |
| Trie.Node.Insert | gk/trie.go:49-63 | insert changes the tree into Inserted(old tree) and keeps the structure valid; existing children keep their place, every existing node stays in the structure, and only new nodes are added; it requires only what Go needs not to panic: a non-empty segment wherever a node is created |
| Trie.Node.InsertBelow | gk/trie.go:62 | the recursive call changes only the chosen child's subtree, the children list itself stays the same, and no node leaves the structure |
| Trie.Node.SetPattern | gk/trie.go:51-53 | at the end of the segments only the node's pattern changes: its children and its footprint stay the same |
| Trie.Node.AppendChild | gk/trie.go:58-61 | a new child for the segment is appended after the existing children, which stay as they were |
| Trie.Inserted | gk/trie.go:49-63 | the tree after insert; the node keeps its part and isWild (InsertedGrows extends this to every node) |
| Trie.InsertPath | gk/trie.go:49-63 | the path insert walks has one step per segment still to insert |
| Trie.NonEmptySegmentsInsertDefined | gk/trie.go:56-59 | when every segment still to insert is non-empty, insert never reads the first character of an empty segment |
| Trie.EmptySegmentNeedsEligibleChild | gk/trie.go:56-59 | an empty segment is accepted when a wildcard child takes it, and makes insert panic when no child is eligible |
| Trie.InsertWrites | gk/trie.go:49-63 | after insert, the path it walked exists, has one step per remaining segment, and ends at a node carrying the inserted pattern |
| Trie.InsertOneLevel | gk/trie.go:56-61 | insert creates a child only when no child is eligible, appends it at the end, leaves all other children unchanged, and leaves the node's own fields unchanged |
| Trie.InsertedGrows | gk/trie.go:56-61 | no existing node's part or isWild changes, and children are only added after the existing ones |
| Trie.InsertedKeepsWellFormed | gk/trie.go:59 | every node keeps isWild equal to "part starts with ':' or '*'" through insert |
| Trie.WildcardShadowsLiteral | gk/trie.go:56-62 | when a wildcard child comes before any literal match, insert descends into it and adds no sibling |
| Trie.FirstMatchAfterUpdate | gk/trie.go:75-82 | replacing a child by one with the same part and isWild keeps which child matchChild picks |
| Trie.ReinsertOnlyOverwritesPattern | gk/trie.go:49-63 | inserting the same segments again walks the same path, adds no node, and only overwrites the pattern at its end |
| Trie.ReinsertAddsNoNode | gk/trie.go:49-63 | registering the same segments a second time leaves the number of nodes unchanged |
| Trie.Find | gk/trie.go:24-44 | the path of the node search returns, or none for nil; an answer is never longer than the segments left |
| Trie.FindAmong | gk/trie.go:36-43 | an answer of the loop goes through one of the candidate children and is never longer than the segments left |
| Trie.Fits | gk/trie.go:24-41 | a route fits when each step goes to an eligible child and the walk ends at a patterned node, after every segment or at a '*' node; a fitting path is never longer than the segments left |
| Trie.FitsEndsAtRoute | gk/trie.go:24-31 | a successful search ends at a node with a non-empty pattern, either after every segment or at a '*' node with segments left unconsumed |
| Trie.FindSound | gk/trie.go:24-44 | what search returns is a route that fits the segments |
| Trie.FindAmongSound | gk/trie.go:36-43 | the backtracking loop over eligible children returns only fitting routes |
| Trie.FindComplete | gk/trie.go:24-44 | if any route fits the segments, search does not return nil |
| Trie.FindAmongComplete | gk/trie.go:36-43 | if a route fits through one of the candidate children, the backtracking loop finds some route |
| Trie.FindFirst | gk/trie.go:33-41 | when several routes fit, search answers the first in pre-order: every other fitting route comes after it |
| Trie.FindAmongFirst | gk/trie.go:36-41 | the loop answers below the first candidate, in child order, under which any route fits, and there with the first fitting route |
| Trie.InsertedDescent | gk/trie.go:56-62 | after insert, the child it descended into is still the first eligible one, and holds the recursive insert's result |
| Trie.InsertThenFind | gk/trie.go:24-63 | in a trie without '*' nodes, searching the inserted segments finds the very node insert wrote |
| Trie.Node.Search | gk/trie.go:24-44 | returns null exactly when Find finds nothing, and otherwise the node at the path Find gives, whose pattern is non-empty |
| Trie.Node.SearchAmong | gk/trie.go:33-43 | the loop over the eligible children returns the node at the path FindAmong gives, or null when it gives none |
| Trie.TerminalPaths | gk/trie.go:65-72 | the paths of the nodes travel appends, in order; a patterned node comes before everything below it |
| Trie.TerminalPathsSound | gk/trie.go:65-72 | every node travel collects exists and has a non-empty pattern |
| Trie.ChildTerminalPathsSound | gk/trie.go:69-71 | the nodes collected below the first n children lie below those children and carry patterns |
| Trie.PrefixedSound | gk/trie.go:69-71 | a child's collected nodes, seen from the parent, lie below that child |
| Trie.TerminalPathsComplete | gk/trie.go:65-72 | every node with a non-empty pattern is collected by travel |
| Trie.ChildTerminalPathsComplete | gk/trie.go:69-71 | every patterned node below one of the first n children is collected by the loop over them |
| Trie.TerminalPathsInPreorder | gk/trie.go:65-72 | travel collects in pre-order: a parent before its descendants, and earlier children's subtrees first |
| Trie.ChildTerminalPathsInPreorder | gk/trie.go:69-71 | the loop over the children keeps the collected nodes in pre-order |
| Trie.Node.Travel | gk/trie.go:65-72 | the result is the given list followed by exactly the patterned nodes of the subtree, in pre-order |
| Trie.Node.TravelChildren | gk/trie.go:69-71 | after the loop, the list holds the node's own entry and then every child's collected nodes, in order |
| Trie.Node.TravelChild | gk/trie.go:70 | one turn of the loop appends the nodes collected below child i |
| Dispatch.NextSpec | gk/context.go:47-53 | when Next returns, the cursor has moved forward and is at or past the end of the handler list |
| Dispatch.LoopSpec | gk/context.go:50-52 | the loop ends with the cursor at or past the end of the list |
| Dispatch.RunSpec | gk/context.go:51 | a handler's run never moves the cursor back before its own position |
| Dispatch.FailSpec | gk/context.go:56-59 | Fail leaves the cursor at or past the end of the list, sets the status to the code, and extends the trace |
| Dispatch.NextEntersInOrder | gk/context.go:47-53 | within one Next, even a re-entrant one, handlers are entered at strictly increasing positions after the cursor, so each at most once, and never after a Fail |
| Dispatch.LoopEntersInOrder | gk/context.go:50-52 | the loop enters handlers at increasing positions from the cursor on, and none after a Fail |
| Dispatch.RunEntersInOrder | gk/context.go:51 | a handler's own run enters only later handlers in increasing order, and leaves the cursor past the end once it entered any |
| Dispatch.NextEntersAll | gk/context.go:47-53 | when no handler calls Fail, one Next enters every handler after the cursor, and only extends the trace |
| Dispatch.LoopEntersAll | gk/context.go:50-52 | when no handler calls Fail, the loop enters every handler from the cursor to the end of the list |
| Dispatch.RunEntersAll | gk/context.go:51 | when no handler calls Fail, a handler's run either leaves the cursor where it was or moves it past the end having entered every later handler |
| Dispatch.FreshContextEntersFirstHandler | gk/context.go:47-51 | on a fresh context with cursor -1, the first handler entered is handlers[0] |
| Dispatch.NextAgainRunsNothing | gk/context.go:48-52 | once Next has returned, a further Next enters no handler and only moves the cursor |
| Dispatch.NextRunsFollowing | gk/context.go:48-51 | one turn of the loop: the handler after the cursor is entered, then the loop continues from one past where it left the cursor |
| Dispatch.RunAround | gk/context.go:47-53 | a middleware does its before-work, calls Next, then does its after-work, in that order |
| Dispatch.Onion | gk/context.go:47-53 | middlewares that call Next between before-work and after-work nest: all before-work outside in, the terminal handler, then all after-work inside out, with the status unchanged |
| Dispatch.TwoMiddlewaresNest | gk/context.go:47-53 | for middlewares A and B around a handler H the order is A-before, B-before, H, B-after, A-after |
| Dispatch.FailSkipsLaterHandlers | gk/context.go:47-59 | after a Fail the later handler never runs and the status is the failure code, but pending after-work in the outer middleware still runs |
| Dispatch.Context.constructor | gk/context.go:37-45 | a new context copies Path and Method from the request and has cursor -1 |
| Dispatch.Context.Next | gk/context.go:47-53 | the context's cursor, status and trace become NextSpec of the old ones, and handlers and Params are unchanged |
| Dispatch.Context.Invoke | gk/context.go:51 | running the handler at pos changes the context as RunSpec says, after recording that pos was entered |
| Dispatch.Context.Fail | gk/context.go:56-59 | Fail sets the cursor to len(handlers) and StatusCode to code, and the handlers are unchanged |
| Dispatch.Context.JSON | gk/context.go:95-103 | JSON records the status code and changes nothing else of the context |
| Dispatch.Context.Status | gk/context.go:77-80 | Status sets StatusCode to code and changes nothing else of the context |
| Dispatch.Context.Param | gk/context.go:61-64 | returns the stored value for the key, or "" when the key is absent |
| Gk.Contribution | gk/gk.go:42-44 | a group adds either all of its middlewares or none, and some only when its prefix is a string prefix of the path |
| Gk.Selected | gk/gk.go:41-46 | the list ServeHTTP builds, group after group; it is non-empty only if the prefix of some group matches the path |
| Gk.Infos | gk/gk.go:41-42 | one entry per group, in the engine's order, holding that group's prefix and middlewares |
| Gk.Matching | gk/gk.go:43 | keeps exactly the groups whose prefix is a string prefix of the path |
| Gk.SelectedAppend | gk/gk.go:41-46 | the list for the groups a then b is the list for a followed by the list for b |
| Gk.SelectedIsMatchingJoined | gk/gk.go:41-46 | the middleware list is the concatenation, in group order, of the middlewares of exactly the groups whose prefix matches the path |
| Gk.SelectedMembers | gk/gk.go:41-46 | a middleware is in the list if and only if some group whose prefix matches the path has it |
| Gk.RootFirst | gk/gk.go:41-46 | a first group with the empty prefix, like the root group, contributes its middlewares first for every path |
| Gk.RawPrefixMatch | gk/gk.go:43 | group "/api" contributes for "/api/users" and for "/apix", but not for "/other" |
| Gk.Engine.New | gk/gk.go:120-125 | the engine's groups are exactly its root group, which has the empty prefix and no middlewares and points back to the engine |
| Gk.Engine.ServeHTTP | gk/gk.go:40-51 | the new context gets as handlers the list selected from the groups as they stood when the request arrived, the request's path and method, cursor -1, status 0, no parameters and an empty trace |
| Gk.Engine.RootAlwaysSelected | gk/gk.go:41-46 | on an engine wired as New leaves it, the list for every path starts with the root group's middlewares |
| Gk.Engine.CollectMiddlewares | gk/gk.go:41-46 | the loop builds the selected middleware list of the groups for the path |
| Gk.RouterGroup.Make | gk/gk.go:53-58 | a group with the given prefix, parent and engine, and no middlewares |
| Gk.RouterGroup.Group | gk/gk.go:62-72 | the new group's prefix is the parent's prefix followed by p, and it is appended after the engine's existing groups, which stay unchanged |
| Gk.RouterGroup.Use | gk/gk.go:74-76 | the new middlewares go after the existing ones, which keep their order |
| Gk.RouterGroup.AddRoute | gk/gk.go:89-93 | registers the method with the group's prefix followed by the pattern, and changes no groups |
| Gk.RouterGroup.GET | gk/gk.go:79-81 | registers the method "GET" with the group's prefix followed by the pattern |
| Gk.RouterGroup.POST | gk/gk.go:84-86 | registers the method "POST" with the group's prefix followed by the pattern |

## Left out

- Trie.Node.Insert: requires that insert does not panic (`InsertDefined`). Go's insert reads `part[0]` only when no child is eligible (trie.go lines 57-59). An empty segment that an existing wildcard child takes is handled, and the model admits it. An empty segment with no eligible child is a run-time panic in Go, which the model does not represent. Splitting a pattern into segments happens in router.go, which is not part of this model.
- Trie.Node.Travel: the list that travel appends to through a pointer is passed in and returned as a value.
- `node.String` (trie.go lines 17-19) is formatting only.
- Handlers are scripts of steps, not arbitrary Go functions. Panics and the recovery middleware (recovery.go) are not modelled.
- The ghost trace in `Context` records what the handlers did. It exists only to state ordering properties.
- The context's `Writer`, `Req` and `engine` fields are left out, and so are `Query`, `PostForm`, `SetHeader`, `String`, `Data` and `HTML`. These are request and response plumbing of net/http, encoding/json and text/template.
- Dispatch.Context.JSON: records only the status. The header, the JSON body and the status-500 error path on an encoding failure write to the response and are left out.
- Dispatch.Context.Status: the call to `WriteHeader` is left out.
- `Params` is filled in by the router, which is not part of this model. A new context starts with an empty map, which reads the same as Go's nil map.
- `index` and `StatusCode` are unbounded integers. Go's `int` is 64 bits wide, and no handler list comes near that size.
- The router behind the engine is not part of this model. `addRoute` records its registrations in a log.
- Gk.Engine.ServeHTTP: stops after handing the middleware list to the context. The call `router.handle(c)`, which resolves the route and runs the chain, is not modelled.
- The `log.Printf` in `addRoute`, `Run` (network I/O), `Static` and `createStaticHandler` (file serving), `LoadHTMLGlob` and `SetFuncMap` (templates), and `Default` with its `Logger` are left out.
- The engine embeds its root group in Go. Here the root group is the engine's `root` field, and the group methods are called on it.
- Concurrent calls of `ServeHTTP` are not modelled. Each call is sequential.
