# Clayers in Dafny

Clayers keeps specifications as XML documents in a content-addressed repository with
branches, three-way merges and synchronization between stores; it indexes them for search,
analyses the graph of their relations, measures which lines of code they cover, and streams
the events of long jobs to clients. This project models those parts and proves what they
promise, over all trees, all histories and all runs.

The code that works step by step is modelled as methods and classes with loops and
invariants (`Repo`, `ObjectStore`, `RefStore`, `MetaStore`, `VectorIndex`, `Sidecar`,
`JobStore`), each proved against a specification; what the specification means is then
proved in lemmas.

## How the parts fit

- *Objects and hashes.* `Objects`, `Content` and `Store` model the object kinds, documents as
  finite trees, and a store as a map from hashes to objects. Hashing is abstract. What is
  assumed of it is the record `Hashing` with `CollisionFree`: over the trees delimited by
  `known`, and over all documents, trees, commits and tags, equal hashes mean equal content.
  The delimitation matters, because the program gives a text and a comment of equal content
  the same hash and leaves comments out of an element's hash: `known` cannot hold of both
  members of such a pair, and `RoundTrip.TextBecomesComment` shows what happens then. Nor can
  it hold of an element with two texts side by side and of the element with the one text that
  they are written as; a clean merge may make the former
  (`AdjacentTexts.MergedTextsClash`), so committing what such a merge reads as leaves the
  hypotheses. `AdjacentTexts.TextsApartExactly` and `AdjacentTexts.TextsStayApart` say when a
  merge keeps texts apart.
- *Merging.* `ThreeWay`, `AttributeMerge`, `ChildKeys` and `ElementMerge` define the element
  merge on trees; `StoreMerge` and `DocumentMerge` are the recursion over stored objects, with
  its writes, and refine it; `TreeMerge`, `VisitOrder` and `MergeTrees` merge whole trees of
  files, and `Strategies` states what a merged tree holds at each path. The delimited trees
  are taken to be closed under merging (`StoreMerge.MergeClosed`).
- *History.* `Reachability` and `Graph` treat the commit graph as a graph of successor lists
  in which a commit missing from the store is a node without an entry, and `WalkOrder` the
  order in which `log` lists commits. `History` and `Tips` state what every change of commits
  and branches keeps, `Runs` what every run of operations does, and `Repository` has the
  operations.
- *Sync.* `Subtree` and `Sync` move refs, and all they need, from one store to another. The
  two stores may be the same one.
- *Graph analysis.* `Sums`, `Digraphs`, `Betweenness`, `ShortestWalks`, `Scores`,
  `BridgeSearch`, `Bridges` and `Components` treat the relation graph as a directed
  multigraph. Counts and centralities are real numbers here.
- *Search index.* `MetaStore`, `IndexState`, `IndexPlan` and `SearchIndex`, and `CivilDate`
  for the date in its configuration.
- *Coverage.* `Coverage`.
- *Event streams.* `JobStore` and `EventStream`. The framing is that of section 9.2.6 of the
  WHATWG HTML Standard as far as the client implements it: it separates frames at an empty
  line written as two line feeds, and reads `data: ` lines.

## Where the code does not do what its documentation says

- `common_ancestor` is documented to find the lowest common ancestor. It finds a common
  ancestor whenever there is one. It finds the lowest if the two histories join in one place
  only (`Graph.CommonAncestorLowest`), as they do if no commit of one of them only has two
  parents, wherever else there are merges (`Tips.UnmergedOneGateway`). Where they join in
  several places not all of these are lowest (`Tips.GatewaysLowest`), and the search may
  return one that is not (`Graph.CommonAncestorNotLowest`), on a history that commits and one
  merge make (`Runs.LinesMade`). As a consequence a merge may store a redundant merge commit
  where it should answer that the branch is up to date (`Repository.RedundantMerge`), and the
  fast-forward policy of a sync may refuse a ref that could move without losing history
  (`Sync.FastForwardRefused`); where histories join in one place neither happens
  (`Repository.OutcomeExactly`, `Sync.FastForwardExactly`).
- The merged tree is meant to depend on the three trees alone. It does exactly when no
  conflict puts its sidecar at the path of a surviving file with another document
  (`VisitOrder.AnyOrder`), and its paths are distinct exactly when no conflict puts its sidecar
  at the path of a surviving file at all (`VisitOrder.DistinctExactly`). After one merge with a
  conflict a tree holds that conflict's sidecar; merging the same versions of the file again
  puts another document at its path, and then the iteration order of a hash set decides which
  of the two is found (`MergeTrees.OrderMatters`).
- `create_branch` takes any hash. The repository stays sound exactly when the hash is a
  commit (`Repository.Repo.CreateBranch`).
- An incremental update of the search index is meant to give what a rebuild from nothing
  gives. Where ids are unique, every chunk answers with its vector after a run that succeeds
  exactly when no row that has its chunk's hash had another vector before
  (`SearchIndex.AllAnswerExactly`). The hash is that of the element's own XML, but the vector
  depends on more: the embedded text names the element's path, and the fingerprint reads the
  names of its ancestors and the types of its relations. When an element is moved or a relation
  to it is added, its row is reused and keeps the old vector in every later run
  (`SearchIndex.StaleRow`), and its old file and lines. A rebuild from nothing gives every
  chunk its vector (`SearchIndex.RebuildAnswers`), and so would every run if the hash decided
  the vector (`SearchIndex.HashDecides`).
- The search index keeps a vector for every row, but may keep others. If a new id occurs twice
  among the chunks, a run that succeeds leaves a vector without a row. If none does, a vector is
  without a row after the run exactly if it was before and its key is not one of the new keys,
  which are those right after the largest key in use, one for each chunk with a new id
  (`SearchIndex.OrphansExactly`, `SearchIndex.NoOrphansExactly`): so long does such a vector
  stay. A run that fails because the embedder cannot be run has dropped the rows whose ids
  vanished, while the saved index keeps their vectors: it leaves none exactly when there was
  none before and nothing vanished (`SearchIndex.FailureOrphans`,
  `SearchIndex.OrphanWithoutRepeats`).
- `civil_date` is said to be valid for all dates its argument can reach. It is the calendar's
  date exactly up to the end of the year 65535 (`CivilDate.CivilDateExactly`).
- Coverage panics exactly when a range starts more than one line after its end and the file
  has lines after that end (`Coverage.ComputeSingleFileCoverage`,
  `Coverage.SliceableExactly`).

## Model

| member | source | states |
|---|---|---|
| `ThreeWay.MergeCases` | clayers-core/crates/clayers-repo/src/merge.rs:513-578 | The case analysis of a three-way merge by which side is there and which changed yields what the plain rule does: equal sides, or the side that differs from the ancestor, and a conflict exactly where all three differ. |
| `AttributeMerge.MergeAttributes` | clayers-core/crates/clayers-repo/src/merge.rs:643-723 | None is returned exactly when some name conflicts; otherwise the name-to-value map is the pointwise three-way merge, names are unique, and they come in our order and then, for what only they have, in theirs. |
| `AttributeMerge.AttributesSurvive` | clayers-core/crates/clayers-repo/src/merge.rs:643-723 | An attribute that one side left alone is as the other has it; there is no merge exactly when some attribute was changed on both sides differently. |
| `AttributeMerge.MergeOrderPlaces` | clayers-core/crates/clayers-repo/src/merge.rs:663-684 | Of two names visited that a side has, ours come first in our order, and then what only they have in theirs. |
| `AttributeMerge.MergedAttributesSymmetric` | clayers-core/crates/clayers-repo/src/merge.rs:643-723 | Swapping ours and theirs gives the same map or the same conflict. |
| `AttributeMerge.MergeOrderMeaning` | clayers-core/crates/clayers-repo/src/merge.rs:663-684 | The names visited are those of the three lists, each once. |
| `ChildKeys.KeyChildren` | clayers-core/crates/clayers-repo/src/merge.rs:290-346 | The keying loop with its counters pairs every child with the key its kind and occurrence determine, and fails exactly on a child the store lacks. |
| `ChildKeys.KeysDistinct` | clayers-core/crates/clayers-repo/src/merge.rs:269-346 | The keys of siblings are distinct exactly when no two siblings share local name and id. |
| `ChildKeys.KeyAt` | clayers-core/crates/clayers-repo/src/merge.rs:290-346 | A child without an id is keyed by how many siblings of its kind come before it. |
| `ChildKeys.KeySpelled` | clayers-core/crates/clayers-repo/src/merge.rs:290-346 | An element is keyed by its name and the value of its id or xml:id attribute, or by how many elements of its name before it have neither; a text, comment or other node by how many of its kind come before it. |
| `ChildKeys.KindAgrees` | clayers-core/crates/clayers-repo/src/merge.rs:299-340 | The key read from a stored object is the key of the tree the object is the top of. |
| `ElementMerge.MergeSucceeds` | clayers-core/crates/clayers-repo/src/merge.rs:436-615 | An element merge succeeds exactly when no attribute and no child key conflicts at any depth, a conflict of three present children being resolved by merging them. |
| `ElementMerge.MergeIsPerKey` | clayers-core/crates/clayers-repo/src/merge.rs:436-615 | The merged element has the local name and namespace of all three, the merged attributes, and for each key of either side exactly the child that the three-way rule or the merge of the three children gives. |
| `ElementMerge.EditsSurvive` | clayers-core/crates/clayers-repo/src/merge.rs:506-579 | In every merge that succeeds, a child changed, added or deleted on one side only is changed, present or gone in the result. |
| `ElementMerge.DeepEditsSurvive` | clayers-core/crates/clayers-repo/src/merge.rs:436-579 | What one side made of an element at any depth is in the result at that depth if the other side left that element alone, whatever else either of them changed, and in particular where one side left the whole tree alone. |
| `ElementMerge.OursFirst` | clayers-core/crates/clayers-repo/src/merge.rs:502-579 | Our surviving children keep our order and precede every child that only they have; those keep theirs. |
| `ElementMerge.MergeSymmetric` | clayers-core/crates/clayers-repo/src/merge.rs:436-615 | With distinct sibling keys, merging ours with theirs and theirs with ours both conflict or both succeed, with results equal up to the order of siblings at every depth. |
| `StoreMerge.MergeElements` | clayers-core/crates/clayers-repo/src/merge.rs:423-615 | What one side left alone is as the other has it, and equal sides are kept. The merge over stored objects agrees with the merge of the trees they stand for, is complete in the store if the inputs are, terminates, keeps every stored object, and fails only on an object that is missing. |
| `AdjacentTexts.MergeJoinsTexts` | clayers-core/crates/clayers-repo/src/merge.rs:502-579 | A clean merge of three versions that keep their texts apart may put two texts side by side. |
| `AdjacentTexts.TextsApartExactly` | clayers-core/crates/clayers-repo/src/merge.rs:502-579 | A merge keeps texts apart exactly when no two keys of texts follow each other among the keys kept. |
| `AdjacentTexts.TextsStayApart` | clayers-core/crates/clayers-repo/src/merge.rs:502-579 | A merge that keeps all our children and takes over no text that only they have keeps our texts apart. |
| `AdjacentTexts.MergedTextsClash` | clayers-core/crates/clayers-repo/src/hash.rs:17-42 | Since two texts side by side are written as one, the merged element and the one it reads as have one hash: both cannot be known. |
| `StoreMerge.MergeKey` | clayers-core/crates/clayers-repo/src/merge.rs:513-553 | One key merged in the store is what the merge of trees gives for it. |
| `StoreMerge.MergeOurs` | clayers-core/crates/clayers-repo/src/merge.rs:506-554 | The loop over our keys gathers the outcomes of those keys in order, or stops at a conflict. |
| `StoreMerge.AppendTheirs` | clayers-core/crates/clayers-repo/src/merge.rs:556-579 | The loop over their keys gathers the outcomes of the keys only they have, in order. |
| `StoreMerge.StoreMerged` | clayers-core/crates/clayers-repo/src/merge.rs:581-614 | The merged element is stored under the hash of the merged tree. |
| `DocumentMerge.MergeDocuments` | clayers-core/crates/clayers-repo/src/merge.rs:354-408 | A document, or a root element, that one side left alone is as the other has it; otherwise documents merge by their root elements, and always under our prologue. With the inputs complete the result is complete, and nothing stored is lost. |
| `TreeMerge.SidecarInjective` | clayers-core/crates/clayers-repo/src/merge.rs:94-113 | Divergence sidecars of different files have different paths, all under the reserved prefix and none equal to an unreserved path. |
| `TreeMerge.ClassifyMeaning` | clayers-core/crates/clayers-repo/src/merge.rs:777-935 | A path is settled without a strategy exactly when the three-way rule on the presence and hash of its versions settles it, and then to that version. |
| `TreeMerge.PathDisappears` | clayers-core/crates/clayers-repo/src/merge.rs:777-935 | A path leaves the tree exactly when a side deleted it and the other left it unchanged or deleted it too. |
| `TreeMerge.ResolveConflict` | clayers-core/crates/clayers-repo/src/merge.rs:953-1024 | A disputed path gets the strategy's document, or ours and a sidecar that describes the conflict; with complete inputs the outcome depends on the versions of that path alone. Which version a strategy keeps is the subject of Strategies.BothChanged and Strategies.DeletedAndChanged. |
| `Strategies.StrategyNamed` | clayers-core/crates/clayers-repo/src/merge.rs:168-175 | The strategy of a path is that of the first override whose pattern the path ends in, and the default if there is none. |
| `Strategies.BothChanged` | clayers-core/crates/clayers-repo/src/merge.rs:197-262 | In the tree and reports of a merge, a path whose versions all differ, or that both sides added differently, holds exactly our document under Ours, theirs under Theirs and the merged one under AutoMerge if there is one, and is reported as merged; under Manual, or if nothing merges, it holds ours, and one sidecar beside it describes the three versions under their own roles. |
| `Strategies.DeletedAndChanged` | clayers-core/crates/clayers-repo/src/merge.rs:855-935 | A deletion against a change is a conflict under every strategy: the path holds ours, or the document of the ancestor if we deleted it, beside one sidecar. |
| `Strategies.OneChanged` | clayers-core/crates/clayers-repo/src/merge.rs:777-935 | A path that at most one side changed, or both alike, is as the side that changed it has it, reported for that side and without a conflict. |
| `TreeMerge.GenerateDivergence` | clayers-core/crates/clayers-repo/src/merge.rs:1028-1060 | The divergence document of a conflict is stored whole and nothing stored is lost. |
| `MergeTrees.MergeTrees` | clayers-core/crates/clayers-repo/src/merge.rs:736-949 | The merged tree and the reports are those collected by visiting every path of the three trees once, in some order, from what the versions of each path alone determine; it fails only on missing or mistyped objects. |
| `MergeTrees.MergesAgree` | clayers-core/crates/clayers-repo/src/merge.rs:764-936 | Two merges of the same trees, in any stores and any orders, give the same tree unless a sidecar's path is taken by another document, and always the same conflicts; their paths are distinct exactly if no sidecar's path is taken. |
| `MergeTrees.OrderMatters` | clayers-core/crates/clayers-repo/src/merge.rs:764-1021 | Where ours holds a document at the path of the sidecar of a conflict that arises again, the tree repeats a path and the order of visits decides which document is found. |
| `VisitOrder.VisitedAll` | clayers-core/crates/clayers-repo/src/merge.rs:764-936 | Whatever the order, the lists hold exactly the entries and reports that the paths contribute, each report once. |
| `VisitOrder.SameEntries` | clayers-core/crates/clayers-repo/src/merge.rs:764-936 | Every order collects the same copies of the same entries. |
| `VisitOrder.AnyOrder` | clayers-core/crates/clayers-repo/src/merge.rs:764-939 | All visiting orders yield the same tree exactly when no conflict puts its sidecar at the path of a surviving file with another document. |
| `VisitOrder.DistinctExactly` | clayers-core/crates/clayers-repo/src/merge.rs:764-939 | The merged paths are distinct exactly when no conflict puts its sidecar at the path of a surviving file. |
| `VisitOrder.FirstVisitedWins` | clayers-core/crates/clayers-repo/src/merge.rs:764-939 | Of a conflict and the file at the path of its sidecar, the one visited first is found at that path. |
| `MergeTrees.OutcomesShaped` | clayers-core/crates/clayers-repo/src/merge.rs:764-1024 | Each path contributes itself at most once, and a conflict adds one sidecar of its own under the reserved prefix. |
| `VisitOrder.DivergencesExactly` | clayers-core/crates/clayers-repo/src/merge.rs:75-79 | The merged tree has divergences exactly when conflicts are reported or a reserved input path survives. |
| `VisitOrder.SidecarsAreConflicts` | clayers-core/crates/clayers-repo/src/merge.rs:983-1024 | The reserved paths of the merged tree are the sidecars of the reported conflicts, one for each, and the reserved input paths that survive. |
| `Trees.SortMeaning` | clayers-core/crates/clayers-repo/src/object.rs:118-125 | Making a tree sorts its entries by path, keeps them all and keeps paths distinct. |
| `Trees.NotAfterMeaning` | clayers-core/crates/clayers-repo/src/object.rs:118-125 | Paths are in lexical order: one begins with the other, or is smaller at the first difference. |
| `Trees.SortCopies` | clayers-core/crates/clayers-repo/src/object.rs:118-125 | Making a tree keeps every copy of every entry. |
| `Trees.GetOfTree` | clayers-core/crates/clayers-repo/src/object.rs:121-130 | A tree returns, for each path, the first of the files it was made of that has the path: the sort is stable. |
| `Trees.SortedOnce` | clayers-core/crates/clayers-repo/src/object.rs:118-125 | The same files in any order give one sorted list, if files with the same path are the same. |
| `Trees.SortedDistinct` | clayers-core/crates/clayers-repo/src/object.rs:118-125 | Sorting neither makes paths coincide nor tells them apart. |
| `Graph.CommonAncestor` | clayers-core/crates/clayers-repo/src/graph.rs:22-82 | The two-sided search in place computes the search function, and terminates on every store. |
| `Graph.CommonAncestorRight` | clayers-core/crates/clayers-repo/src/graph.rs:22-82 | The search returns a commit in the history of both tips, returns None exactly when the histories are disjoint, and fails only on a commit that is named and missing. |
| `Objects.AncestorMeaning` | clayers-core/crates/clayers-repo/src/graph.rs:22-82 | The history of a commit is the commit and the histories of its parents, all of them; of any other hash it is only that. |
| `Graph.CommonAncestorOfClosed` | clayers-core/crates/clayers-repo/src/graph.rs:22-82 | On a closed commit graph the search never fails. |
| `Graph.CommonAncestorLowest` | clayers-core/crates/clayers-repo/src/graph.rs:14-82 | If the two histories join in one place only, the ancestor found is that place and the lowest: every common ancestor is in its history. |
| `Graph.CommonAncestorStable` | clayers-core/crates/clayers-repo/src/graph.rs:22-82 | What a store gains beside a closed commit graph does not change the result of a search in it. |
| `Graph.CommonAncestorNotLowest` | clayers-core/crates/clayers-repo/src/graph.rs:14-82 | After two lines were merged it need not be: from the merge and a commit b on one line the search returns the commit where the lines part, although b is a common ancestor. |
| `Graph.LinesPart` | clayers-core/crates/clayers-repo/src/graph.rs:22-82 | That merge was called for: the search from the ends of the two lines returns the commit where they part. |
| `Graph.WalkHistory` | clayers-core/crates/clayers-repo/src/graph.rs:89-120 | The loop over the queue computes the listing function, with its limit. |
| `Graph.WalkListsHistory` | clayers-core/crates/clayers-repo/src/graph.rs:89-120 | The walk lists commits reachable from the tip, each once, the tip first, and all of them unless the limit is reached; it fails only on a commit that is named and missing. |
| `Graph.HistoryLimit` | clayers-core/crates/clayers-repo/src/graph.rs:89-120 | On every store, a limited walk lists the first part of what the unlimited walk lists, and fails only if that walk fails before the limit is reached. |
| `WalkOrder.WalkNearestFirst` | clayers-core/crates/clayers-repo/src/graph.rs:89-120 | A walk, limited or not, lists a commit before every commit that is more steps back from the tip. |
| `Runs.OperationKeeps` | clayers-core/crates/clayers-repo/src/repo.rs:88-405 | Importing, building a tree, committing, merging, and creating a branch at a commit that its old tip leads to keep the commit graph closed and acyclic and lose no history. |
| `Runs.RunAdvances` | clayers-core/crates/clayers-repo/src/repo.rs:88-405 | Over every run of these operations every branch ends at a descendant of where it was at any time before, and the commit graph stays closed and acyclic. |
| `Runs.MadeProper` | clayers-core/crates/clayers-repo/src/repo.rs:30-405 | What a run of operations on a new repository ends in is closed, acyclic and addressed. |
| `Runs.LinesMade` | clayers-core/crates/clayers-repo/src/repo.rs:88-405 | Seven operations and a merge that is called for make the history on which the ancestor search misses the lowest, with a branch left at the commit missed. |
| `History.HistoryUnchanged` | clayers-core/crates/clayers-repo/src/repo.rs:88-405 | Growing a closed history leaves the history of every old commit exactly as it was. |
| `History.NoCycles` | clayers-core/crates/clayers-repo/src/repo.rs:88-125 | In a sound repository two commits in each other's history are one. |
| `History.CommitStep` | clayers-core/crates/clayers-repo/src/repo.rs:96-114 | Storing a commit on stored parents keeps the commit graph closed and acyclic. |
| `History.ContentStep` | clayers-core/crates/clayers-repo/src/merge.rs:736-949 | Storing documents and trees touches no history. |
| `History.RefStep` | clayers-core/crates/clayers-repo/src/repo.rs:116-122 | Moving a branch and HEAD to a descendant of the tip keeps the repository sound. |
| `Tips.TipsMeet` | clayers-core/crates/clayers-repo/src/repo.rs:335-340 | Two commits of a closed history have a common ancestor unless their histories are disjoint, and the search finds one. |
| `Tips.TipsCases` | clayers-core/crates/clayers-repo/src/repo.rs:335-356 | Where the histories join in one place the search recognizes a fast-forward exactly when ours is an ancestor, and an up-to-date branch exactly when theirs is. |
| `Tips.GatewaysLowest` | clayers-core/crates/clayers-repo/src/graph.rs:14-82 | Every place where two histories join is the lowest common ancestor exactly when they join in one place only. |
| `Tips.UnmergedOneGateway` | clayers-core/crates/clayers-repo/src/graph.rs:14-82 | Histories join in one place if no commit of one of them only has two parents. |
| `Repository.Repo.constructor` | clayers-core/crates/clayers-repo/src/repo.rs:30-32 | A new repository over an empty store is sound. |
| `Repository.Repo.Commit` | clayers-core/crates/clayers-repo/src/repo.rs:88-125 | A commit gets the branch tip as its parent, or none; branch and HEAD move to it; the repository stays sound and every branch advances. |
| `Repository.Repo.BuildTree` | clayers-core/crates/clayers-repo/src/repo.rs:62-79 | The stored tree has exactly the given files, each path with its own document and as often as given, sorted by path; no history changes. |
| `Repository.Repo.CreateBranch` | clayers-core/crates/clayers-repo/src/repo.rs:134-138 | The repository stays sound exactly when the target is a commit, and advances exactly when the branch is new or its tip is an ancestor of the target. |
| `Repository.Repo.LoadTree` | clayers-core/crates/clayers-repo/src/repo.rs:408-429 | Loading succeeds exactly when the commit and its tree are there with the right kinds, and then returns the entries of that tree. |
| `Repository.Repo.MergeCommits` | clayers-core/crates/clayers-repo/src/repo.rs:358-393 | The merge commit has both tips as parents and the merge of their trees over the ancestor's as its tree, and is signed as asked. |
| `Repository.Repo.Merge` | clayers-core/crates/clayers-repo/src/repo.rs:313-405 | The outcome is that of up to date, no common ancestor, fast-forward and merge commit which the ancestor search calls for; except for no common ancestor the target tip is afterwards in the history of the branch; a failure moves no ref; the repository stays sound and every branch advances; with all files there it does not fail. |
| `Repository.OutcomeExactly` | clayers-core/crates/clayers-repo/src/repo.rs:335-356 | Where the histories join in one place a merge is up to date exactly when theirs is in our history, and a fast-forward exactly when ours is in theirs. |
| `Repository.RedundantMerge` | clayers-core/crates/clayers-repo/src/repo.rs:335-393 | On that history, which the program makes, merging the branch left behind stores a merge commit although its tip is in our history already. |
| `Import.CollectNode` | clayers-core/crates/clayers-repo/src/import.rs:80-234 | The recursion appends the objects of a node after those of its children and returns its hash; the last object has the kind, names, attributes and text of the node and one hash for each child. |
| `Import.ContentFaithful` | clayers-core/crates/clayers-repo/src/import.rs:80-234 | Two well-formed nodes have one content exactly when they are equal but for the order of attributes: nothing else of the markup is lost. |
| `Import.PrologueMeaning` | clayers-core/crates/clayers-repo/src/import.rs:40-52 | The prologue holds the comments and processing instructions before the root and nothing else. |
| `Import.PrologueInOrder` | clayers-core/crates/clayers-repo/src/import.rs:40-52 | They stay in their order. |
| `Import.ImportXml` | clayers-core/crates/clayers-repo/src/import.rs:32-77 | Importing files the objects of prologue and root, then the document object, in one transaction. |
| `RoundTrip.ImportFiles` | clayers-core/crates/clayers-repo/src/import.rs:80-234 | Whatever the hashes and the store, importing files every part of a document under its own hash exactly when no two different parts share one. |
| `RoundTrip.ImportKeeps` | clayers-core/crates/clayers-repo/src/import.rs:63-77 | Whatever the hashes and the store, importing a document without such a clash leaves an earlier one filed exactly when no parts of the two share a hash and differ. |
| `RoundTrip.FiledRebuilds` | clayers-core/crates/clayers-repo/src/export.rs:109-194 | A document filed part by part is spelled out from its root hash: same names, attribute map and child sequence. |
| `RoundTrip.ImportRoundTrip` | clayers-core/crates/clayers-repo/src/import.rs:80-234 | Imported into any addressed store, a document rebuilds from its hash, and so does every tree that rebuilt before. |
| `RoundTrip.TextBecomesComment` | clayers-core/crates/clayers-repo/src/hash.rs:42-44 | An element holding a text and a comment of equal content is not rebuilt, because the two share a hash. |
| `TreeMerge.ImportedDocument` | clayers-core/crates/clayers-repo/src/import.rs:32-77 | Importing a document into any addressed store loses nothing and makes it whole: the root element and the prologue rebuild from their hashes. |
| `Export.BuildNode` | clayers-core/crates/clayers-repo/src/export.rs:109-194 | Rebuilding returns the tree the hash names, and fails only on a missing object or one that is no XML content. |
| `Export.RebuildsOnce` | clayers-core/crates/clayers-repo/src/export.rs:109-194 | The objects under a hash spell out one tree. |
| `Store.ObjectStore.Commit` | clayers-core/crates/clayers-repo/src/store/mod.rs:147-167 | A committed transaction leaves what its writes left, in order. |
| `Store.FiledMeaning` | clayers-core/crates/clayers-repo/src/store/mod.rs:147-167 | After a transaction every hash holds what was there before or something the transaction wrote under it. |
| `Content.OneContent` | clayers-core/crates/clayers-repo/src/import.rs:80-234 | What belongs under one hash is one content, up to the order of attributes. |
| `Subtree.SubtreeWalk` | clayers-core/crates/clayers-repo/src/store/mod.rs:72-104 | The walk yields every object reachable from the root exactly once, and fails exactly when one is missing. |
| `Subtree.WholeAtMeaning` | clayers-core/crates/clayers-repo/src/store/mod.rs:72-104 | An object is whole exactly if what it refers to is: the tree and parents of a commit, the target of a tag, the documents of a tree, the root and prologue of a document, the children of an element. |
| `Subtree.TransferObjects` | clayers-core/crates/clayers-repo/src/sync.rs:127-155 | A transfer adds exactly the reachable objects the destination lacks, leaves those it has, and returns how many it added; if one is missing in the source the destination is unchanged. |
| `Subtree.SelectMissing` | clayers-core/crates/clayers-repo/src/sync.rs:134-140 | The entries selected, in any order, are those of the source that the destination lacks. |
| `Subtree.ReceivedKeeps` | clayers-core/crates/clayers-repo/src/sync.rs:127-155 | A transfer leaves existing objects as they are, brings everything reachable from the root, and keeps a closed store closed. |
| `Subtree.ReceivedAgain` | clayers-core/crates/clayers-repo/src/sync.rs:142-144 | A transfer changes nothing exactly when everything is there, as it is after a transfer. |
| `Subtree.AddressedAgree` | clayers-core/crates/clayers-repo/src/sync.rs:127-155 | Content addressing makes any two stores agree where they hold the same hash. |
| `Sync.Resolve` | clayers-core/crates/clayers-repo/src/sync.rs:61-114 | Overwrite always moves, Reject always refuses, FastForwardOnly moves exactly if the destination's value is the ancestor found and otherwise refuses, and a caller's policy is obeyed. |
| `Sync.FastForwardMoves` | clayers-core/crates/clayers-repo/src/sync.rs:56-77 | The fast-forward policy moves a ref only to a descendant. |
| `Sync.FastForwardExactly` | clayers-core/crates/clayers-repo/src/sync.rs:56-77 | Where the histories join in one place it moves a ref exactly when the new value is a descendant. |
| `Sync.SyncsSteadily` | clayers-core/crates/clayers-repo/src/sync.rs:174-208 | Whether a ref can be synced does not depend on what the refs before it brought, for the policies of the program and, where a fast-forward is asked for, a closed destination. |
| `Sync.FastForwardRefused` | clayers-core/crates/clayers-repo/src/sync.rs:56-77 | After two lines were merged it may refuse a move to a descendant. |
| `Sync.ReceivedNumbered` | clayers-core/crates/clayers-repo/src/sync.rs:127-155 | Receiving commits into an acyclic history keeps it acyclic. |
| `Sync.KeptTransitive` | clayers-core/crates/clayers-repo/src/sync.rs:217-244 | What a sync of one ref keeps, a run of them keeps. |
| `Sync.KeptAdvances` | clayers-core/crates/clayers-repo/src/sync.rs:56-77 | Under the fast-forward policy a sync only advances the destination's branches. |
| `Sync.MoveRef` | clayers-core/crates/clayers-repo/src/sync.rs:196-207 | A ref moves exactly when it is new or the policy lets it. |
| `Sync.SyncRef` | clayers-core/crates/clayers-repo/src/sync.rs:174-208 | Whether it succeeds or not: existing objects are unchanged, closedness and soundness are kept, and the ref, if it moved, has its whole closure; it succeeds exactly when the ref is in the source and is equal already or can be brought whole and is not refused; where the value differs a caller's policy is asked on what was received, and its answer is the result: the ref moves exactly on yes. |
| `Sync.SyncRefs` | clayers-core/crates/clayers-repo/src/sync.rs:217-244 | Complete or aborted, the run keeps all that; refs outside the prefix stay. On success every ref is the source's unless a caller's policy skipped it, and the count is that of refs that were missing or different; repeated, it moves nothing and returns 0. Overwrite succeeds exactly when every ref is the same already or complete in the source; Reject changes no ref that is there, and succeeds exactly when those are the same and the new ones complete; FastForwardOnly, on a closed destination, exactly when each that differs is complete and meets the source at the destination's value. |
| `Sync.CanSyncByPolicy` | clayers-core/crates/clayers-repo/src/sync.rs:61-114 | When one ref syncs under each of the three policies. |
| `Digraphs.WalksCount` | clayers-core/crates/clayers-spec/src/connectivity.rs:407-432 | The count of walks of a given length is the length of a list that names every walk once, parallel edges counted. |
| `Digraphs.WalksByFirst` | clayers-core/crates/clayers-spec/src/connectivity.rs:407-432 | Walks may be counted by their first edge or by their last. |
| `Digraphs.OutIsIn` | clayers-core/crates/clayers-spec/src/connectivity.rs:292-299 | An edge is out of its source as often as it is into its target. |
| `BridgeSearch.Nearer` | clayers-core/crates/clayers-spec/src/connectivity.rs:419-432 | Every node within a walk shorter than the distance of the front of the queue has left the queue. |
| `BridgeSearch.FrontIsFinal` | clayers-core/crates/clayers-spec/src/connectivity.rs:419-432 | When a node leaves the queue its distance is the shortest and its sigma the number of shortest walks to it. |
| `BridgeSearch.Expand` | clayers-core/crates/clayers-spec/src/connectivity.rs:419-432 | Looking at the targets of a node keeps the state of the search and leaves fewer nodes. |
| `BridgeSearch.Search` | clayers-core/crates/clayers-spec/src/connectivity.rs:407-432 | The stack holds exactly the nodes reached, nearest first; sigma is the number of shortest walks; the predecessors of a node hold the source of each edge that ends a shortest walk to it, once for each parallel edge. |
| `ShortestWalks.ShareMeaning` | clayers-core/crates/clayers-spec/src/connectivity.rs:434-447 | A share is the number of shortest walks between two nodes that visit a third, over the number of all of them. |
| `ShortestWalks.VisitedAtDistance` | clayers-core/crates/clayers-spec/src/connectivity.rs:434-447 | A shortest walk visits a node after as many edges as the node is far. |
| `Betweenness.DependencyStep` | clayers-core/crates/clayers-spec/src/connectivity.rs:434-447 | A node's dependency, the sum of its shares over all targets, is what it receives of the nodes right after it on shortest walks, once for each edge. |
| `Betweenness.SourceDependency` | clayers-core/crates/clayers-spec/src/connectivity.rs:434-447 | All of what the source reaches depends on the source. |
| `Bridges.LastIsFinal` | clayers-core/crates/clayers-spec/src/connectivity.rs:434-447 | When a node is taken off the stack its delta is its dependency. |
| `Bridges.BackPropagate` | clayers-core/crates/clayers-spec/src/connectivity.rs:434-447 | Back-propagation ends with the dependency of every node reached, adds each to its centrality, and the source's delta is the number of nodes reached minus one. |
| `Bridges.Centralities` | clayers-core/crates/clayers-spec/src/connectivity.rs:397-448 | Over all sources the centrality of a node is its betweenness: the sum over pairs of other nodes of the fraction of shortest walks between them that visit it. |
| `Bridges.FindBridgeNodes` | clayers-core/crates/clayers-spec/src/connectivity.rs:397-477 | The result lists distinct nodes of positive betweenness, highest score first, at most the number asked for, and leaves out no node that scores higher than one listed. A listed score is between 0 and 1, and times the number of pairs of other nodes it is the betweenness; the node lies on a shortest walk between two others. |
| `Scores.BetweennessRange` | clayers-core/crates/clayers-spec/src/connectivity.rs:434-456 | The betweenness of a node is at most the number of ordered pairs of other nodes, equal to it exactly for a hub, through which alone any two others are joined, and positive exactly for a node on some shortest walk between two others. |
| `Bridges.ScoreOfPairs` | clayers-core/crates/clayers-spec/src/connectivity.rs:450-466 | With more than two nodes a score times the number of pairs of other nodes is the betweenness. |
| `Bridges.ScoreRange` | clayers-core/crates/clayers-spec/src/connectivity.rs:450-466 | Scores lie between 0 and 1. |
| `Bridges.HubScoresOne` | clayers-core/crates/clayers-spec/src/connectivity.rs:450-466 | A node scores 1 exactly if it is a hub. |
| `Bridges.StarScoresOne` | clayers-core/crates/clayers-spec/src/connectivity.rs:450-466 | The centre of a star with edges both ways scores 1. |
| `Components.WeaklyConnectedComponents` | clayers-core/crates/clayers-spec/src/connectivity.rs:305-347 | Every node is in exactly one component, and two nodes share a component exactly when an undirected path joins them. |
| `Components.Component` | clayers-core/crates/clayers-spec/src/connectivity.rs:318-341 | The inner loop, despite repeated entries on the stack, ends with exactly the nodes joined to its start. |
| `Components.JoinedBack` | clayers-core/crates/clayers-spec/src/connectivity.rs:328-338 | Following edges in both directions joins nodes symmetrically. |
| `Components.JoinedExactly` | clayers-core/crates/clayers-spec/src/connectivity.rs:305-341 | Two nodes are joined exactly if no set of nodes that holds both or neither end of every edge parts them. |
| `MetaStore.MetaStore.Upsert` | clayers-core/crates/clayers-search/src/meta.rs:119-143 | An upsert replaces the row of its id, and is refused, without effect, exactly when another row has its key. |
| `MetaStore.MetaStore.Delete` | clayers-core/crates/clayers-search/src/meta.rs:145-148 | Deleting removes the row of the id and no other. |
| `MetaStore.MetaStore.GetByKey` | clayers-core/crates/clayers-search/src/meta.rs:91-113 | At most one row has a key, and it is found. |
| `MetaStore.MetaStore.MaxKey` | clayers-core/crates/clayers-search/src/meta.rs:164-172 | The largest key, or 0 of an empty table. |
| `MetaStore.MetaStore.AllIds` | clayers-core/crates/clayers-search/src/meta.rs:154-158 | Every id once. |
| `IndexState.RemoveVanished` | clayers-core/crates/clayers-search/src/index.rs:125-138 | The rows whose id vanished go, and the vectors under exactly their keys. |
| `IndexState.OthersKept` | clayers-core/crates/clayers-search/src/index.rs:125-138 | Removing rows with their vectors leaves every other row its vector. |
| `IndexState.SameOrphans` | clayers-core/crates/clayers-search/src/index.rs:125-138 | Removing rows with their vectors leaves the same vectors without a row. |
| `IndexPlan.PlanChunks` | clayers-core/crates/clayers-search/src/index.rs:140-158 | Every chunk is reused exactly when its row has its hash, and otherwise gets the key of its row or a new one; the new keys are exactly those right after the largest in use, one for each chunk with a new id; the reused are counted. |
| `IndexPlan.PlanUsesNewKeys` | clayers-core/crates/clayers-search/src/index.rs:142-157 | The keys of pending chunks with new ids are exactly the new keys. |
| `SearchIndex.InsertingNext` | clayers-core/crates/clayers-search/src/index.rs:169-194 | Inserting a pending chunk is never refused, puts its row and its vector under its id, and leaves all others. |
| `SearchIndex.InsertChunks` | clayers-core/crates/clayers-search/src/index.rs:160-195 | After the insertions what is under each id is as it was before, or as the last chunk inserted with that id made it. |
| `SearchIndex.RowsAreChunks` | clayers-core/crates/clayers-search/src/index.rs:125-195 | The ids of the table end as those of the chunks, each with the row and vector made for a chunk of its id: unchanged if the hash was the same, and otherwise a row with the chunk's own file, lines, layer, namespace, hash and preview, and its vector. |
| `SearchIndex.OrphansExactly` | clayers-core/crates/clayers-search/src/index.rs:140-195 | If a new id occurs twice a vector without a row is left; if none does, those of before are left whose keys are no new keys. |
| `SearchIndex.NoOrphansExactly` | clayers-core/crates/clayers-search/src/index.rs:140-195 | No vector is without a row after an update exactly when no new id occurs twice and every one without a row before has a new key. |
| `SearchIndex.FailureOrphans` | clayers-core/crates/clayers-search/src/index.rs:125-166 | After a failed run the saved vectors without a row are those of before and those of the rows that vanished; there is none exactly when there was none and nothing vanished. |
| `SearchIndex.OrphanWithoutRepeats` | clayers-core/crates/clayers-search/src/index.rs:125-166 | Where one chunk replaced another and the embedder cannot be run, a vector is left without a row although no id occurs twice. |
| `SearchIndex.AnswersExactly` | clayers-core/crates/clayers-search/src/index.rs:140-195 | A chunk with an id of its own answers with its vector after an update exactly if its row did not have its hash with another vector. |
| `SearchIndex.AllAnswerExactly` | clayers-core/crates/clayers-search/src/index.rs:72-195 | Where ids are unique every chunk answers with its vector, as after a rebuild, exactly when no reused row had another vector. |
| `SearchIndex.StaleRow` | clayers-core/crates/clayers-search/src/fingerprint.rs:61-64 | A row that has its chunk's hash but not its vector is reused in every run and keeps that vector. |
| `SearchIndex.RebuildAnswers` | clayers-core/crates/clayers-search/src/index.rs:72-195 | A rebuild from nothing gives every chunk its vector. |
| `SearchIndex.HashDecides` | clayers-core/crates/clayers-search/src/index.rs:145-149 | If the hash decides the vector, every run that succeeds answers as a rebuild does, and every run keeps it so. |
| `SearchIndex.Update` | clayers-core/crates/clayers-search/src/index.rs:125-195 | The chunks reused are counted exactly, and with those embedded make up all; a run on an unchanged spec embeds nothing and changes nothing; it fails exactly when something must be embedded and the embedder cannot be run, and then the vanished rows are gone. |
| `SearchIndex.Sidecar.BuildOrUpdate` | clayers-core/crates/clayers-search/src/index.rs:72-225 | From nothing, if it is forced or another model or fingerprint version made the files, and otherwise from the files: each id ends with what was made for its chunk; where ids are unique all chunks answer with their vectors exactly when none was stale; the vectors without a row are exact on success and on failure; a failure saves no vectors. |
| `CivilDate.CivilDateRight` | clayers-core/crates/clayers-search/src/index.rs:444-458 | The date is the Gregorian calendar's with the year cut to 16 bits, for every count of seconds. |
| `CivilDate.CivilDateExactly` | clayers-core/crates/clayers-search/src/index.rs:438-458 | It is exactly the calendar's date for the days up to the end of the year 65535 and for no later one. |
| `CivilDate.DateOfMonotone` | clayers-core/crates/clayers-search/src/index.rs:444-458 | Later days have later dates, so no two days have one date. |
| `CivilDate.DateOfValid` | clayers-core/crates/clayers-search/src/index.rs:444-458 | Every date is a valid one. |
| `CivilDate.YearOfEraRight` | clayers-core/crates/clayers-search/src/index.rs:448-448 | The division formula finds the year of the era in which a day falls. |
| `Coverage.FindUncoveredRanges` | clayers-core/crates/clayers-spec/src/coverage.rs:417-453 | The ranges are the maximal runs of lines neither covered nor blank, in order, and their line counts add up to the number of such lines. |
| `Coverage.ComputeSingleFileCoverage` | clayers-core/crates/clayers-spec/src/coverage.rs:305-358 | The lines counted are those not blank that a range names from its first to its last line; they are that percentage of the lines not blank, all of a file without any; the uncovered ranges hold the others and nothing else; the percentage is 100 exactly when no range is uncovered; it panics exactly when a range is no slice of the file. |
| `Coverage.SliceableExactly` | clayers-core/crates/clayers-spec/src/coverage.rs:315-320 | A range is a slice of a file exactly when it starts at most one line after its end, or no line of the file comes after its end. |
| `Coverage.MarkRange` | clayers-core/crates/clayers-spec/src/coverage.rs:315-322 | Marking a range sets the flags of its lines and no others. |
| `EventStream.CutAppend` | orchestrator/src/client.ts:171-185 | Cutting a longer text into frames gives the frames of the shorter one, then those of what it left over with the rest. |
| `EventStream.StreamJob` | orchestrator/src/client.ts:160-188 | What a client shows, or the error it fails with, depends on the text alone and not on how it is cut into chunks. |
| `EventStream.ParseBody` | orchestrator/src/client.ts:190-200 | A frame reads as the event it was written for. |
| `EventStream.CutText` | orchestrator/src/server.ts:273-302 | What a stream has written falls into the greeting and exactly the frames of its events. |
| `EventStream.StreamRoundTrip` | orchestrator/src/server.ts:261-302 | However the text of a stream is cut into chunks, a client shows exactly its events, in order, and the status they lead to. |
| `EventStream.WriteSse` | orchestrator/src/server.ts:297-302 | Writing an event appends its frame: the id, the kind and the data, each on a line of its own, and an empty line. |
| `EventStream.DigitsRead` | orchestrator/src/server.ts:297-302 | An event number is written in decimal without leading zeros. |
| `EventStream.SplitAgain` | orchestrator/src/client.ts:190-200 | Splitting joined lines gives the lines back. |
| `EventStream.StatusShown` | orchestrator/src/client.ts:160-200 | The status shown is what follows "job." in the kind of the last event whose kind begins so. |
| `JobStore.JobStore.AddEvent` | orchestrator/src/job-store.ts:60-73 | Events are numbered from 1 without gaps, and every stream that listens to the job has written all of them. |
| `JobStore.JobStore.SetStatus` | orchestrator/src/job-store.ts:44-50 | A status change is an event. If the status is completed, completed_with_issues or failed, every stream that listened to the job has ended and listens no more; if it is queued or running each still listens. |
| `JobStore.JobStore.Create` | orchestrator/src/job-store.ts:20-34 | A new job is queued, and its first event says so. |
| `JobStore.JobStore.Emit` | orchestrator/src/job-store.ts:71-78 | An emitted event reaches every stream that listens to the job, in any order, and no other. |
| `JobStore.JobStore.StreamEvents` | orchestrator/src/server.ts:261-295 | A request is answered with all events so far; a stream of those to come is added exactly when the job is queued or running. |
| `JobStore.DeliveredTracks` | orchestrator/src/server.ts:285-292 | Delivering an event keeps every stream in step with its job. |
| `JobStore.LiveClientSees` | orchestrator/src/client.ts:160-200 | A client that attached while its job was live and whose stream has ended has shown exactly the events 1 to n, each once and in order, for every way the text was cut; the last is of kind job.completed, job.completed_with_issues or job.failed, and the status shown is that one. |
| `JobStore.ClientSeesPrefix` | orchestrator/src/client.ts:160-200 | A client still listening, or gone, has been sent a prefix of the events. |

## Left out

- XML parsing, canonicalization, serialization and SHA-256 are abstract: documents are trees, and hashes are functions with the hypotheses of `Content.CollisionFree`.
- Namespace prefixes, `extra_namespaces` and the inclusive hash of elements are not modelled; an attribute is its local name, namespace and value.
- An export is modelled up to the element tree; writing the prologue and the declaration before it is not, although the prologue's nodes are shown to be there to rebuild.
- `merge_elements_cached` keeps a cache of objects and files the merged element under a temporary slot while hashing it; the model hashes the merged tree directly and has neither the cache nor the slot.
- Graph.CommonAncestorLowest: where two histories join in several places, which of their common ancestors the search returns depends on the lengths of the paths and is not characterized. The same goes for `Sync.FastForwardExactly`.
- ChildKeys.KindAgrees: elements that carry both an unqualified `id` and an `xml:id` are left to the order in which the source lists attributes, so the key of a tree is stated for trees in which an element has at most one of the two.
- Merged documents take our prologue, so `ElementMerge.MergeSymmetric` is about elements and not about documents.
- MergeTrees.MergeTrees: the exact outcome is stated for stores that hold the documents named by the three trees; otherwise only what may fail and what is kept is stated. A path that only the ancestor and one side have, and that the strategy cannot settle, keeps the ancestor's or our document beside its sidecar, as the code does.
- Merge strategies other than the four that come with the program, and the text of divergence documents, which is a parameter with the hypotheses of `TreeMerge.Describable`.
- The 16 hex digits in a sidecar's name are a parameter of that length; that they tell two conflicts of one file apart is not used.
- Deleting branches, tags, listings, diffs and queries of a repository.
- Commit timestamps, author and message are fields only; the clock is a parameter.
- Store backends, asynchrony, concurrent writers and crashes between two writes are not modelled; a transaction is one update of a map. Sync streams an object subtree as a list.
- Sync.SyncRef: agreement of the two stores on common hashes is a precondition; `Subtree.AddressedAgree` derives it from content addressing.
- Reading nodes and relations from a spec, isolated nodes, and the lists of hub nodes and cycles; components and their members are not put in order of size and name; ids of nodes are their numbers.
- Rounding: betweenness and percentages are over the reals.
- Embedding, fingerprints, the vector index's neighbour search and its capacity: a vector is a value, and the embedder of a model a function of the chunk.
- Failures of the disk while saving the index, the lock file, and keys beyond the 64-bit range (`SearchIndex.Room`).
- SearchIndex.AllAnswerExactly: stated for chunks with unique ids; where an id occurs twice, `SearchIndex.RowsAreChunks` says that its row and vector were made for one of its chunks.
- Formatting the date as text, and the time of day.
- The list of covered ranges in a coverage report, whole-file mappings and coverage by spec node.
- JSON is a pair of a printer and a parser that undo each other, printing on one line (`EventStream.Faithful`); event types are assumed to be single lines, which those of the program are. The text decoder is taken to deliver the text in pieces, so a chunk is a piece of text.
- JobStore.JobStore.Create: the random id of a new job is assumed not to be in use.
- Redaction of URLs in job input, HTTP routing, running jobs, and the bound on listeners.
