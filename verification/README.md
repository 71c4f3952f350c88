# The help runtime, verified

`docs/Default.js` is the runtime behind a set of generated help pages. A *help system* is a folder with
data files (table of contents, browse sequences, index, concepts, glossary, aliases) and may include other
help systems as *subsystems*. This project models the parts of the runtime whose correctness depends on
state built up over many calls, and proves what they keep.

- **The table of contents.** Entries may stand for content that is not loaded yet: a chunk file, or a
  subsystem's table of contents (a merge). Moving to the next or previous topic, printing and resolving
  paths, finding owners and numbering entries all run while the tree is being expanded. `TocTree` has the
  documents, the tree in memory and the fully expanded tree; an element is named by its position, the list of
  child numbers leading to it, and document order is the order of positions (`Preorder`). `TocFile.TocFile`
  is the class that holds the tree; its methods follow the code and are proved against the expanded tree.
  A chunk and a merge take two steps there, request and arrival, and other calls may come between them
  (`TocLoads`): `Full(Final, ..)` is the tree with everything in place, `Full(Present, ..)` is without what is on
  its way. `TocChunks` is about the files that chunk names stand for, `TocOwners` about the systems elements
  belong to, `TocLinks` about the elements that a topic's address finds, `TocReplace` about merges that replace their
  element, `TocCalls` about overlapping calls.
- **Loading files as scripts.** `ScriptQueue` has the protocol of `CMCXmlParser.GetXmlDoc` that is used when
  the pages are opened from disk: each script stores its content under its base name, so scripts
  with the same base name take turns.
- **Merging and joining in a tree of help systems.** `IndexMerge` and `IndexAssembly` (keyword index),
  `GlossaryMerge` and `GlossaryTree`, `CshLookup` (looking up a context-sensitive identifier), `ConceptLinks` (remembered
  concept links in shared arrays), `HelpSystems` (which system an address
  belongs to), all on trees of help systems (`SystemTree`).
- **Supporting structures.** `Dictionary` (`CMCDictionary`) and `CombinePath` (`CMCUrl.CombinePath`), with
  `Text` and `Url` for the string operations that all of them need. Each of these is tied to a description that does
  not use it: which characters are compared, cut, put in front or replaced.

Where the code works on fields and loops, there is a class or a method with a loop, proved against
a function; the lemmas state what that function means.

What the proofs found about the code, each with the exact condition under which the code does as meant:

- A page whose link has both a query and a fragment is taken for no topic, because only what follows the second of the
  two marks is cut (`TocNavigation.TopicByKeptPart`, with a page in `PageMissed`).
- An element whose merge is on its way looks like one without content, so a move goes past what is about to
  appear below it (`TocTransit.MoveInTransit`, with an example in `MoveCanPass`).
- A chunk that is requested again before it arrives is appended once for each request (`TocLoads.RunKeepsFull`,
  with a run in `TwoRequests`).
- A bare chunk name in a merged subsystem is looked up in the folder of the table's own system
  (`TocChunks.ExpandsAsOwned` and `NamesDecide`, with an example in `MergedChunkMissed`).
- While a call of `GetTocNode` waits for a load, another one overwrites the address it is to go on with, and empties it
  when its own book is there; it does no harm only when it ends at once without a book and asks for the same address
  (`TocCalls.CallIsSafe`, with examples in `SafeThoughOneWaits` and `WaitingCallMisled`).
- A replacing merge puts three or more entries in the wrong order (`TocReplace.ReplaceKeepsOrder`).
- A printed path finds its entry again exactly when each book on it has a title without a bar and no earlier
  sibling with the same title (`TocSteps.RoundTrip`).
- An entry's number counts each link on its way that is no topic (`TocSequence.SequenceIndexIsRank`).
- A pending file that is requested again loses a callback when another file with its base name is pending
  (`ScriptQueue.RepeatedRequest`, with examples in `FlyingRepeatLoses` and `WaitingRepeatLoses`). Without one it
  gets a second script; a request for another file of the name before both have reported may then run a callback
  twice, which is the other case that `ScriptQueue.SafeExactly` tells from the safe ones.
- `CMCDictionary.Remove` keeps values that compare equal to the text "undefined" (`Dictionary.RemoveWorksUnless`).
- `CMCUrl.CombinePath` can merge the two slashes after a scheme (`CombinePath.HostIsKept`, `HostCanBeLost`), or those
  before a server (`ServerIsKept`).
- A glossary entry has the folder of every system on its way put before its address, although each starts at the
  root (`GlossaryTree.AddressIsRight`).

## Model

| member | source | states |
|---|---|---|
| TocFile.TocFile.constructor | docs/Default.js:1789-1831 | The tree taken from the document stands, at present and finally, for the full expansion of the document. |
| TocFile.TocFile.RequestChunk | docs/Default.js:1874-1877 | A chunk request leaves the attribute in place; the fully expanded tree stays the same if and only if no request for the same chunk with elements is on its way, and the file asked for is the one of the element's own system if and only if the name has a slash or the system's folder is the table's own. |
| TocFile.TocFile.ChunkArrives | docs/Default.js:1879-1918 | Whatever happened since the request, the attribute goes, the document's elements are appended behind the children there are, and the fully expanded tree stays the same. |
| TocFile.TocFile.LoadChunk | docs/Default.js:1874-1919 | A request and its arrival with nothing in between change the present tree not at all, nor the fully expanded one unless chunks were requested before; no element or attribute is lost. |
| TocLoads.StepKeepsOrGrows | docs/Default.js:1874-2018 | Any request or arrival of a chunk or a merge, in any state, keeps the fully expanded tree unless it repeats a request for a chunk with elements, which makes the tree larger. |
| TocLoads.RunKeepsFull | docs/Default.js:1874-2018 | Any run of requests and arrivals in any order keeps the fully expanded tree if and only if it requests no chunk with elements while a request for it is on its way. |
| TocLoads.TwoRequests | docs/Default.js:1874-1919 | A chunk requested twice before it arrives: its elements are below the element twice, and the fully expanded tree is another. |
| TocChunks.ChunkFileAgrees | docs/Default.js:1876 | Two folders give a chunk name the same file if and only if the name has a slash or the folders are the same. |
| TocChunks.ExpandsAsOwned | docs/Default.js:1876 | The fully expanded tree is the one in which each chunk comes from the system it belongs to if and only if, wherever the two ways of looking a name up give different files, in the document or in what it stands for, these stand for the same. |
| TocChunks.NamesDecide | docs/Default.js:1876 | The two trees are the same however one of the files is extended if and only if bare chunk names occur only in systems whose folder is the table's own. |
| TocChunks.MergedChunkMissed | docs/Default.js:1876 | A subsystem whose table of contents is one chunk with a bare name: below the merge the chunk's element has no children, and one with the subsystem's own file. |
| TocFile.TocFile.RequestMerge | docs/Default.js:1924-1945 | The hint goes and the element is recorded for the subsystem its owner has under that hint; the fully expanded tree stays the same although the content is not there yet. |
| TocFile.TocFile.MergeArrives | docs/Default.js:1947-2018 | Whatever was loaded since the request, the elements of the recorded subsystem's document become the children and the fully expanded tree stays the same. |
| TocFile.TocFile.LoadMerge | docs/Default.js:1924-2018 | A merge as a whole changes neither the fully expanded tree nor the present one; no element or attribute is lost. |
| TocFile.TocFile.GetOwnerHelpSystem | docs/Default.js:2593-2620 | The walk up ends and gives the system that the nearest recorded element on the way belongs to, else the table's own. |
| TocOwners.OwnerAtAnyTime | docs/Default.js:2593-2620 | After any requests and arrivals from the imported document on, the owner found in memory is the system the element belongs to in the document's expansion if and only if the element is not itself a merge still to be requested; every element is in that expansion unless a chunk was requested again while on its way. |
| TocTransit.PresentIsFinal | docs/Default.js:1874-2018 | The present tree is the final one if and only if no element awaits a document with elements. |
| TocTransit.HiddenIsAwaited | docs/Default.js:1874-2018 | Where the final tree has more children than the present one, the element is in memory and awaits a document with elements. |
| TocFile.TocFile.GetNextNode | docs/Default.js:2504-2543 | From any element in any loading state, after the loads it needs, the result is the node right after it in document order of the present tree, none if it is the last; the loads change no tree. |
| TocFile.TocFile.GetPreviousNode | docs/Default.js:2426-2502 | The same for the node right before it, through the deepest last descendant of the previous sibling with the loads on the way down. |
| TocFile.TocFile.DeepestUnder | docs/Default.js:2428-2452 | Going down along last children and loading at each bottom ends at the node right before the starting point. |
| TocSteps.DeepestChildGap | docs/Default.js:2574-2591 | The deepest last child in memory is strictly below, and everything between it and the starting point lies under it. |
| TocFile.TocFile.GetMoveTocTopicNode | docs/Default.js:2376-2424 | In either direction the moves end, at the nearest topic of the present tree in document order, none if there is none; that is the nearest topic of the fully expanded tree if and only if, before the move, no place behind which a topic is to come lies ahead with no topic of the present tree between. |
| TocFile.TocFile.MoveToTopic | docs/Default.js:2387-2424 | Moving on from nodes that are no topics ends at the nearest topic; topics are the links that, without what is cut from their end, have the configured extension behind the last dot or slash, else htm or html, in capital or small letters. |
| TocNavigation.TopicsExactly | docs/Default.js:2393-2420 | The test that the code makes with the extension of the link holds exactly of the topics so described. |
| TocNavigation.TopicByExtension | docs/Default.js:2405-2420 | A link to a file, with a fragment or a query behind it or neither, is a topic's if and only if the file's extension is a topic's. |
| TocNavigation.TopicByKeptPart | docs/Default.js:3620-3627 | A link with a query and a fragment is a topic's if and only if the part up to the second of the two marks has, behind its first mark, a dot or slash and then a topic's extension: the file does not matter. |
| TocNavigation.PageMissed | docs/Default.js:3620-3621 | A page with a query and a fragment that is taken for no topic. |
| TocNavigation.NearestTopicUnique | docs/Default.js:2376-2424 | The topic reached is determined by the expanded tree, whatever was loaded before. |
| TocNavigation.ThereAndBack | docs/Default.js:2376-2543 | From a topic to the next one and back to the previous one returns to it, and the other way round. |
| TocNavigation.ClimbNext | docs/Default.js:2511-2516 | With nothing left in an element, the next node is its next sibling, and without one nothing is left in its parent. |
| TocNavigation.DescendGap | docs/Default.js:2428-2441 | Among the nodes before a point, a childless one with nothing but its own content up to the point is the last; otherwise its last child has that property. |
| TocTransit.MoveInTransit | docs/Default.js:2376-2570 | The nearest topic of a tree is the nearest of the same tree with more children if and only if no place behind which such a topic is to come lies ahead with no topic between: a condition on the starting point only. |
| TocTransit.MoveCanPass | docs/Default.js:2558-2570 | A tree in which a move passes one: the topic about to appear is skipped. |
| TocFile.TocFile.GetTocNode | docs/Default.js:2095-2226 | Starting over after each load with the address kept in the fields ends, and the result, found, not found or an error thrown, is what the path and address resolve to on the present tree, independent of what was loaded before; the loads do not change that tree, and the fields are empty afterwards if and only if the book was there. |
| TocCalls.CallIsSafe | docs/Default.js:2101-2187 | After a call every call resolves what it asked for, whatever the loads from then on bring, if and only if no other call waits, or the call ends at once without a book and asks for the address the only other one waits for, which is the one in the fields when calls were made in order. |
| TocCalls.StaysRightExactly | docs/Default.js:2095-2226 | Every call resolves what it asked for in every run of loads from a state on if and only if the ones that ended did, at most one waits, and the fields hold its address. |
| TocCalls.SafeCallsAreRight | docs/Default.js:2095-2226 | Over any run in which each call is safe when it is made, every call resolves the address it asked for. |
| TocCalls.OneAtATimeIsRight | docs/Default.js:2095-2226 | The same over runs in which calls are made only while no other waits. |
| TocCalls.SafeThoughOneWaits | docs/Default.js:2139-2144 | A call waits for a merge and a second one for the same address finds no book: the fields stay set, and every call resolves what it asked for. |
| TocCalls.WaitingCallMisled | docs/Default.js:2181-2182 | A second call for another address: the waiting one resolves that address when the second finds no book, and none when it finds one. |
| TocFile.TocFile.WalkSteps | docs/Default.js:2122-2155 | Following the steps stops at an element still to be loaded, or with the outcome that the steps have on the expanded tree: a missing last step is not found, a missing earlier one throws. |
| TocFile.TocFile.FindBook | docs/Default.js:2279-2294 | The first child with the title. |
| TocFile.TocFile.FindLinkNode | docs/Default.js:2296-2374 | The book itself if its whole link matches, else the first child whose link does, without fragment and query when the match need not be exact. |
| TocFile.TocFile.PickNode | docs/Default.js:2157-2180 | The book for step 0, the numbered child for another step, else the match for the address relative to the owner's folder: exact first, then on the plain path. |
| TocLinks.LinksExactly | docs/Default.js:2299-2367 | The comparison of links holds if and only if the link, behind its first character, or its first nine in HTML Help, with a space for each %20, is the address in capital or small letters, or when the match need not be exact, is it up to its first fragment or query. |
| TocLinks.WrittenLink | docs/Default.js:2303-2341 | A link that starts with a slash, or in HTML Help with /Content/, leads to the address behind that and to no other. |
| TocLinks.FindLinkIsFirst | docs/Default.js:2296-2374 | The element found is the one itself, or else its first child, that links to the address. |
| TocLinks.AddressResolves | docs/Default.js:2166-2180 | A path of titles resolves, at the book they lead to, to the book or its first child that links to the address relative to the folder of the book's system; else to the one that does without regard to fragments and queries; else to nothing. |
| TocFile.TocFile.GetTocPath | docs/Default.js:2622-2662 | The printed path is the titles of the books from below the root joined by bars and the final numbered step; printing throws exactly for an untitled element with children. |
| TocPaths.ParsePrinted | docs/Default.js:2106-2120 | A printed path parses back to its number, and to its titles if and only if none holds a bar. |
| TocLinks.ParseTitles | docs/Default.js:2106-2120 | A path of titles without bars, the last of which does not start with $$$$$, parses to these titles and no numbered step. |
| TocSteps.RoundTrip | docs/Default.js:2095-2187 | After any run of requests and arrivals since an element's path was printed, resolving it returns to the element if and only if each book on the path has a title, without a bar, that no earlier sibling has. |
| Text.SplitJoin | docs/Default.js:2106 | Splitting at a character undoes joining with it for pieces that lack it. |
| Text.ParseDecimal | docs/Default.js:2115 | Reading the decimal text of a number gives the number back. |
| Text.DecimalDigits | docs/Default.js:2644 | The decimal text of a number ends in its last digit, behind the decimal text of the rest. |
| Text.ParseIntReads | docs/Default.js:2115 | A number is read behind spaces and a sign, up to whatever is no digit. |
| Text.HexadecimalReads | docs/Default.js:2115 | Behind 0x a hexadecimal number is read, up to whatever is no such digit. |
| Text.LtExactly | docs/Default.js:1424-1452 | The comparison of texts holds if and only if the first is a beginning of the second or has the smaller character where they first differ. |
| Text.LowerExactly | docs/Default.js:1421-1422 | Lower-casing puts a small letter for each of A to Z and keeps every other character. |
| Url.PlainPathExactly | docs/Default.js:3620-3621 | An address is cut at its first # or its first ?, whichever comes later, and not at all without them. |
| Url.KeepsAMark | docs/Default.js:3620-3621 | A mark is left over if and only if the address has both. |
| Url.ExtensionOf | docs/Default.js:3622-3627 | The extension is what stands behind the last dot or slash of the address so cut. |
| Url.NameOf | docs/Default.js:3622-3627 | The name of a file is what stands between its folder and the last dot. |
| Url.ToExtensionOf | docs/Default.js:3833-3841 | Setting an extension replaces what stands behind the last dot; of a URL without a dot only the new extension is left. |
| TocFile.TocFile.ComputeEntrySequenceIndex | docs/Default.js:2664-2703 | The number computed in memory, with content unloaded or on its way, is the number computed on the fully expanded tree as well as on the present one. |
| TocFile.TocFile.CountPreviousSiblings | docs/Default.js:2680-2700 | The backward loop adds the stored counts of all previous siblings and one for each that is a topic. |
| TocFile.TocFile.GetIndexTotalForEntry | docs/Default.js:2245-2267 | The total is the count stored in the entry's top-level ancestor, or -1. |
| TocSequence.SequenceIndexIsRank | docs/Default.js:2664-2703 | With correct stored counts the number is the number of topics below the top-level ancestor at or before the entry, plus one for each link on the way that is no topic's. |
| TocSequence.NoStrayLinks | docs/Default.js:2673-2678 | There are none of these if and only if every link on the way below the top-level ancestor is a topic's. |
| TocSequence.SequenceIndexWithinTotal | docs/Default.js:2245-2267 | The number never exceeds the total stored in the top-level ancestor. |
| TocSequence.NextAddsOne | docs/Default.js:2664-2703 | Moving to the next topic under the same top-level ancestor adds one to the number. |
| TocReplace.ReplaceMerge | docs/Default.js:1974-2018 | A replacing merge leaves, in place of its element among its parent's children, the first imported entry and then the others from last to second; the last is reported only when there are two or more. |
| TocReplace.ReplaceInTree | docs/Default.js:1974-2018 | The fully expanded tree then has, in place of the element, what the entries stand for in the system recorded last, in that order, and is the same elsewhere. |
| TocReplace.ReplaceKeepsOrder | docs/Default.js:1988-2003 | When these all differ, the tree is the one with the entries in the document's order if and only if there are at most two. |
| TocReplace.SpliceKeepsOrder | docs/Default.js:1988-2003 | Different entries keep their order if and only if there are at most two. |
| TocReplace.ReplaceOwner | docs/Default.js:1945-1985 | The system recorded for the spliced entries is the subsystem they are from if and only if no merge was requested in between, or the last one was for the same system; then each stands for what its document entry stands for there. |
| ScriptQueue.Loader.constructor | docs/Default.js:3057-3059 | The loader starts with nothing stored, pending or in flight, with names and scripts taken from URLs. |
| ScriptQueue.Loader.GetXmlDoc | docs/Default.js:3100-3152 | A request, also for a file that is pending or in flight, joins the pending files and appends a script element unless another file with its base name is pending and the request does not come from the queue. |
| ScriptQueue.StartsUnlessNamePending | docs/Default.js:3106-3139 | A request for a file that does not come from the queue appends the script of that file, with its folder and base name, if and only if no other pending file has its base name in whatever folder. |
| ScriptQueue.AddExactly | docs/Default.js:3108 | A file that is new in the dictionary comes last, and one that is there keeps its place. |
| ScriptQueue.NextIsFirst | docs/Default.js:3071-3087 | The file that is next is the first in the dictionary with the name. |
| ScriptQueue.Loader.RequestFile | docs/Default.js:3100-3152 | A safe request keeps every invariant of the queue. |
| ScriptQueue.Loader.ExecuteScript | docs/Default.js:3057-3059 | A script stores its content under its base name; every invariant is kept. |
| ScriptQueue.Loader.OnScriptLoaded | docs/Default.js:3063-3097 | When a script reports, its file leaves, the content found under its name goes to its callback, and the next file with that name starts; every invariant is kept. |
| ScriptQueue.Loader.StartNext | docs/Default.js:3071-3087 | The first pending file with the name of the one that left starts, through a new request from the queue. |
| ScriptQueue.StepKeepsInv | docs/Default.js:3057-3161 | Every step, requests being safe, keeps: scripts in flight that share a base name are for one file, and only one while another file with the name waits; each pending name has a script in flight; the queue flag is down; each callback got its own file's content; and no callback is lost or doubled. |
| ScriptQueue.RunKeepsInv | docs/Default.js:3057-3161 | The same over every run of safe requests, executions and reports in any order: the callbacks waiting, in flight and run are together the requests made, each as often as made. |
| ScriptQueue.LoadedKeepsInv | docs/Default.js:3063-3097 | When a script reports, the content handed out is its own file's, although the table is keyed by base name and old entries stay in it; no callback is lost or doubled. |
| ScriptQueue.CanStep | docs/Default.js:3057-3161 | While a file is pending or a script is in flight, some script can take its next step. |
| ScriptQueue.RunWorks | docs/Default.js:3057-3161 | Without new requests every run takes exactly as many steps as work gets done, so it ends. |
| ScriptQueue.FinishedRunsDeliver | docs/Default.js:3057-3161 | After safe requests, when no script can take a step, every request's callback has run exactly as often as it was made, with its own file's content. |
| ScriptQueue.NewRequestsAreSafe | docs/Default.js:3100-3161 | Over any run in which no file is requested while it is pending, every request is safe, the invariants hold, and every script in flight is for a pending file and the only one of its base name. |
| ScriptQueue.OneScriptPerName | docs/Default.js:3100-3161 | Then at most one script per base name is in flight, and exactly one while a file of the name is pending. |
| ScriptQueue.NewRequestsDeliver | docs/Default.js:3057-3161 | After such a run, when no script can take a step, every request's callback has run exactly once for each time it was made, with its own file's content. |
| ScriptQueue.SafeExactly | docs/Default.js:3100-3152 | A request is safe, by a test on the queue before it, if and only if in every run of the scripts from then on each callback waits, is in flight or has run exactly as often as it was requested. |
| ScriptQueue.RepeatedRequest | docs/Default.js:3108-3126 | A pending file may be requested again without losing or doubling a callback in any run from then on if and only if no other file with its base name is pending. |
| ScriptQueue.FlyingRepeatLoses | docs/Default.js:3108-3126 | A file in flight with another waiting, requested again: the new callback is in the dictionary only, and no script holds it. |
| ScriptQueue.WaitingRepeatLoses | docs/Default.js:3108 | A waiting file requested again: its first callback is nowhere any more. |
| ScriptQueue.RepeatAlone | docs/Default.js:3128-3151 | A file in flight with no other of its name pending, requested again: there are two script elements, one for each callback. |
| ScriptQueue.LoadedAccounts | docs/Default.js:3063-3097 | In any state at all, a report loses no callback, and doubles exactly that of the next file when a script for it is in flight already. |
| ScriptQueue.UrlsAreLawful | docs/Default.js:3569-3700 | Base names of URLs hold no slash, and a script's own script is itself. |
| Url.ToExtensionTwice | docs/Default.js:3833-3841 | Setting an extension that the URL already has changes nothing. |
| IndexMerge.MergeIndexEntries | docs/Default.js:1381-1488 | The recursive loop ends, and its result is the merge of the two trees, the first entry's own term and links staying. |
| IndexMerge.MergeCommon | docs/Default.js:1403-1466 | The loop stops with one list used up, and what it merged with what is left of the other is the merge. |
| IndexMerge.MergeSorted | docs/Default.js:1381-1488 | Merging two trees strictly sorted by lower-cased term at every level gives one, in which at every level each term stands before the next one in small letters and character by character. |
| IndexMerge.SortedAscends | docs/Default.js:1421-1452 | Sorted trees are those whose neighbours so ascend. |
| IndexMerge.FindMerge | docs/Default.js:1381-1488 | A term is in the merge if it is in either tree; of a term in both the first tree's spelling stays, with the second tree's links behind its own and the merged sub-entries. |
| IndexMerge.MergeLinksAt | docs/Default.js:1381-1488 | At every path of terms the merge has the first tree's links followed by the second's. |
| IndexMerge.MergeMeaning | docs/Default.js:1381-1488 | No link at any path of terms is lost or doubled by a merge, and no term, even when the trees are not sorted. |
| IndexMerge.AbsoluteMeaning | docs/Default.js:1498-1525 | Making links absolute puts the system's path before each link of the tree, at any depth, once. |
| IndexMerge.AbsoluteLinks | docs/Default.js:1517-1520 | Link by link in document order: the address becomes the path followed by the stored address without the slash it may start with, and title and term path stay. |
| IndexMerge.SameMeaningSameAnswers | docs/Default.js:1381-1488 | Sorted indexes that hold the same links at the same term paths answer every path of terms alike, up to the order of links. |
| IndexAssembly.ArriveKeeps | docs/Default.js:939-976 | Each arriving document keeps the sum of what the index says and what is to come, whichever callback it runs. |
| IndexAssembly.AssemblyComplete | docs/Default.js:926-976 | For every order of arrival, a complete merged index says exactly what all documents of all existing systems say, each link made absolute once. |
| IndexAssembly.CompleteIndexHolds | docs/Default.js:926-976 | The links of a complete index are, up to their order, the links that the documents of all existing systems store, one for one: each at its term path, with its system's path before the stored address without the slash it may start with. |
| IndexAssembly.ArrivalAppends | docs/Default.js:926-976 | From sorted documents, at each path of terms an arriving chunk's links, and those of a subsystem whose index is complete, come behind those there are; addresses are made absolute in their order. |
| IndexAssembly.OrderDoesNotMatter | docs/Default.js:1305-1379 | From sorted documents any two orders of arrival end in sorted indexes with the same terms and, at each, the same links up to their order. |
| IndexAssembly.SomethingExpected | docs/Default.js:939-976 | Until the index is complete, some document is on its way: no counter waits for something that does not come. |
| IndexAssembly.ArriveCounts | docs/Default.js:939-976 | Every arrival leaves exactly one document fewer to come. |
| IndexAssembly.RunEnds | docs/Default.js:939-976 | A run that no arrival can continue has taken as many steps as there are documents, and the index is complete. |
| CshLookup.LookupAnswersOnce | docs/Default.js:784-838 | For every interleaving and every shape of the tree the completion is called at most once, and exactly once when no alias file is on its way; found is true exactly when some system in the tree resolves the identifier. |
| CshLookup.ArriveAnswersOnce | docs/Default.js:790-812 | One arriving alias file makes the one call exactly when it completes the lookup, and the answer is right. |
| CshLookup.RunAnswersOnce | docs/Default.js:784-838 | The same over runs from any state that lookups reach. |
| CshLookup.SomethingExpected | docs/Default.js:826-836 | Until the lookup has answered, some alias file is on its way. |
| CshLookup.FinderOwnsTopic | docs/Default.js:814-824 | An answer that was found is the answer of a system of the tree that resolves the identifier, and its topic lies in that system's folder. |
| CshLookup.OwnAnswerExactly | docs/Default.js:378-433 | A system answers what the identifier stands for in it, a topic and behind the first bar a skin, or the entry of the names and else of the ids: the topic under its path and content folder, and the default skin when there is none. |
| CshLookup.FoundStandsFor | docs/Default.js:378-459 | What a system finds stands for something in it. |
| CshLookup.ResolvesSomewhere | docs/Default.js:378-459 | A tree resolves an identifier if and only if some system in it knows it: there is none, it is a text with a dot, or a map of the system has it, either map for a text and the second for a number. |
| ConceptLinks.Concepts.GetConceptLinksLocal | docs/Default.js:1065-1126 | The lookup ends with the concept answered here and below, composed as stated, and changes no remembered answer anywhere and no array but unanswered ones of this concept below. |
| ConceptLinks.Concepts.AskAndMerge | docs/Default.js:1069-1081 | A subsystem's answer is appended to the array being assembled, and the subsystem's own answer and every remembered one stay as they are. |
| ConceptLinks.Concepts.AskAll | docs/Default.js:1107-1124 | Each existing subsystem answers once, in any order, and the array holds the own links and the answers so far. |
| ConceptLinks.Concepts.StartArray | docs/Default.js:1083-1096 | The array is the one in the concept map, or a new one when the map has none. |
| ConceptLinks.Concepts.MergeConceptLinks | docs/Default.js:1571-1582 | The second array's links are appended in order to the first, and no other array changes. |
| ConceptLinks.AnswersStay | docs/Default.js:1065-1126 | After any further lookups of any concepts at any systems, an answer once given is the identical sequence: the own links followed by each existing subsystem's answer, each once. |
| ConceptLinks.LookupKeepsGood | docs/Default.js:1065-1126 | A lookup keeps every concept of every system unanswered with its own links, or answered as composed. |
| ConceptLinks.RememberGood | docs/Default.js:1076-1078 | Remembering the assembled array makes it the concept's composed answer. |
| ConceptLinks.FrameKeepsGood | docs/Default.js:1065-1126 | Concepts and systems a lookup is not about stay as they were, although arrays are shared with the concept map. |
| Dictionary.CMCDictionary.constructor | docs/Default.js:3423-3430 | A new dictionary is the empty map. |
| Dictionary.CMCDictionary.GetItem | docs/Default.js:3464-3488 | The value of a live key, whichever part holds it, and nothing for others. |
| Dictionary.CMCDictionary.Add | docs/Default.js:3529-3548 | The key holds the value afterwards and all else is as before; no key is in both parts or twice in one. |
| Dictionary.CMCDictionary.Remove | docs/Default.js:3505-3527 | The key is gone and all else is as before, except that a value that compares equal to the text "undefined" under a key that is not inherited stays. |
| Dictionary.CMCDictionary.IndexOfKey | docs/Default.js:3490-3503 | The place of the key in the list, -1 exactly when it is not there. |
| Dictionary.CMCDictionary.ForEach | docs/Default.js:3437-3462 | The callback is called on the object's items, in whatever order the object lists them, and then the list's, up to and including the first for which it returns false. |
| Dictionary.CMCDictionary.ForEachMeetsAll | docs/Default.js:3437-3462 | In whatever order, a loop that is not stopped meets each live key once, with its value. |
| Dictionary.RemoveWorksUnless | docs/Default.js:3505-3527 | Remove does what it is for if and only if the key does not hold, outside the inherited names, a value that compares equal to the text "undefined". |
| Dictionary.RemoveCanFail | docs/Default.js:3520-3526 | Two values that stay after Remove: the text "undefined" and the array of it. |
| Dictionary.RunAsIntended | docs/Default.js:3437-3548 | Any run of operations that stores no such value under a key that is not inherited has the effect of a finite map's operations. |
| Dictionary.RunExactly | docs/Default.js:3437-3548 | After each operation of a run the dictionary holds what a finite map would if and only if no Remove of the run meets such a value. |
| Dictionary.LastOperationDecides | docs/Default.js:3437-3548 | After any run, a key holds what the last operation on it left: the value added, or nothing, except that a value that compares equal to the text "undefined" under a key that is not inherited is still there after a Remove. |
| CombinePath.Combine | docs/Default.js:3734-3796 | Two absolute URLs throw; otherwise the loop walks the segments from the base, with the part of an mk URL up to its double colon kept in front. |
| CombinePath.CombinedIsStack | docs/Default.js:3734-3796 | Combining throws exactly when the second URL has a colon that is not at its beginning; otherwise an mk URL stays up to its first two colons in a row, and the rest's segments have those of the path pushed. |
| CombinePath.CombineIsStack | docs/Default.js:3761-3791 | For a base in which no two slashes meet, the segments of the result are the base's with each segment of the path pushed, "." and empty ones ignored and ".." taking the last away; through all slash cases. |
| CombinePath.StepPushes | docs/Default.js:3761-3791 | One round of the loop is one push, and leaves a path of the same form. |
| CombinePath.HostIsKept | docs/Default.js:3761-3791 | For a base with doubled slashes, what stands up to the last of them is kept if and only if the path never takes a name or ".." with no segment left after it, and then the rest is the stack's segments. |
| CombinePath.ServerIsKept | docs/Default.js:3761-3791 | For a base whose only doubled slashes are its first two characters, the segments of the result are the stack's, and both slashes are there if and only if each name or ".." that met no segment left is followed by a "." that meets none. |
| CombinePath.EveryBase | docs/Default.js:3761-3791 | Every base has no doubled slashes, or starts with its only ones, or splits into a root up to the last of them and a rest. |
| CombinePath.HostCanBeLost | docs/Default.js:3761-3791 | A base and a path for which they are lost. |
| HelpSystems.GetHelpSystem | docs/Default.js:691-711 | The loop gives the first answer of a subsystem, else the system itself if its folder is a prefix of the address. |
| HelpSystems.MatchesExactly | docs/Default.js:705 | A system matches exactly the addresses that start with its folder in capital or small letters. |
| HelpSystems.LookupFinds | docs/Default.js:691-711 | Nothing is found exactly when no system in the tree has a folder that is a prefix of the address; what is found matches and nothing below it does. |
| HelpSystems.FoundIsLongest | docs/Default.js:621-630 | When subsystem folders extend their parent's and are no prefixes of one another, all matching systems lie on the way to the one found, which has the longest folder. |
| GlossaryMerge.MergeGlossaries | docs/Default.js:1584-1737 | The loops end, and their result is the merge of the two lists with the second's folder taken from its glossary's address. |
| GlossaryMerge.MergeCommon | docs/Default.js:1649-1699 | The loop stops with one list used up, and what it merged with what is left is the merge. |
| GlossaryMerge.MergeSorted | docs/Default.js:1584-1737 | Merging two sorted glossaries gives a sorted one, in which each term stands before the next one in small letters and character by character. |
| GlossaryMerge.SortedAscends | docs/Default.js:1649-1699 | Sorted glossaries are those whose neighbours so ascend. |
| GlossaryMerge.FolderOf | docs/Default.js:1616-1618 | The folder of a glossary's address is the address up to its last slash. |
| GlossaryMerge.FindMerge | docs/Default.js:1584-1737 | For each term the merge has the first glossary's entry, else the second's with the folder put before its address once. |
| GlossaryMerge.MergeMembers | docs/Default.js:1584-1737 | An entry of a merge is one of the first glossary, or one of the second with the folder before its address. |
| GlossaryMerge.TwoLevelsPrefixTwice | docs/Default.js:1490-1496 | An entry that comes up through two merges has both folders before its address, which is its own folder only if and only if the other is empty. |
| GlossaryTree.GetGlossary | docs/Default.js:1153-1195 | For any tree and any order of arrival, each entry comes from a system reached through existing ones, with the folders on the way to it before its address and nothing else; from sorted pages the glossary is sorted, has exactly their terms, and has the system's own entry where there is one. |
| GlossaryTree.AddressIsRight | docs/Default.js:1490-1496 | An entry has its own system's folder alone before its address if and only if the folders strictly between are all empty; so always from the first level. |

## Left out

- The C, C++ and Objective-C headers under `include/`: prototypes and structures without bodies.
- Browser plumbing: opening windows, frame messages, ActiveX and XMLHttpRequest loading, parsing and serialising XML, the web-service branches. A load is an event that delivers a document; loads that fail are not modelled.
- Search databases (`CMCSearchDB`, `GetSearchDBs`), `GetMergedAliasIDs`, `GetMergedAliasNames`, reading `HelpSystem.xml` (only the paths it gives subsystems are used), `LoadGlossary` and overlapping calls of `Init`: the last two can run a completion more than once.
- Table of contents: elements only, no text or comment nodes; chunk files do not contain themselves. An element stands for at most one of chunk and merge and has no children yet when it does; merge hints name existing subsystems; the root stands for no merge.
- Table of contents: the tree is a value in a field of the class, and elements are named by positions rather than by references; positions stay valid because the modelled loads only append behind the children there are.
- TocFile.TocFile.RequestMerge: the branch for a merge that replaces its element is in `TocReplace` and not in the class, because it moves the positions of the siblings behind it.
- TocFile.TocFile.MergeArrives: the same, for the arrival of such a merge.
- TocFile.TocFile.LoadMerge: the same, for both; calls between request and arrival are the business of `TocLoads.RunKeepsFull`.
- TocFile.TocFile.LoadChunk: a request for a chunk that was requested before changes the fully expanded tree, as `TocFile.TocFile.RequestChunk` says.
- TocFile.TocFile.GetNextNode: no moves into merges that replace their element.
- TocFile.TocFile.GetPreviousNode: no moves into merges that replace their element; the code reports no last node for one with a single entry.
- TocFile.TocFile.GetMoveTocTopicNode: no moves into merges that replace their element. The address that `AdvanceTopic` builds from the topic is not modelled.
- TocFile.TocFile.GetTocNode: one call at a time, each load it needs arriving before anything else happens; overlapping calls are the business of `TocCalls`.
- TocOwners.OwnerAtAnyTime: says which system is found, not whose file the content came from; that is what `TocChunks.ExpandsAsOwned` is about.
- TocCalls.CallIsSafe: what a call resolves is its address. Where following an address ends after a load is left open, because the documents to come decide it.
- TocReplace.ReplaceMerge: a step on the tree beside the class, with the document's arrival and not its request; an empty document leaves the element, as in the code.
- TocSequence.NextAddsOne: for the extensions htm and html, because the numbering ignores a configured extension.
- ScriptQueue.SafeExactly: callbacks are numbers, and what they do is further requests.
- IndexMerge.MergeIndexEntries: on values; the document is not changed in place, and of an entry its term, links and sub-entries are modelled.
- IndexAssembly.AssemblyComplete: the callbacks are steps of a state machine on values, one step an arriving document. It is `GetMergedIndex` that is modelled: `GetIndex` does the same for a system with subsystems, but returns the first document as it is, without its chunks and with its links as they are, when the system has no subsystems or the index is merged beforehand.
- CshLookup.LookupAnswersOnce: the callbacks are steps of a state machine on values, one step an arriving alias file.
- ConceptLinks.Concepts.GetConceptLinksLocal: arrays are numbered entries of a field instead of heap objects, so sharing is sharing of a number; concept files count as loaded; lookups do not overlap.
- Dictionary.CMCDictionary.ForEach: the key `__proto__`, null and function values and the length counter are not modelled.
- GlossaryMerge.MergeGlossaries: on values; of an entry its term and the address of its link.
- GlossaryTree.GetGlossary: every system has a glossary address; each subsystem's glossary is merged when it is whole, in any order.
- Strings: lower-casing covers the letters A to Z; the spaces that `parseInt` skips are the ASCII ones, the no-break space and the byte order mark.
