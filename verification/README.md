# Northstar in Dafny

Northstar is a browser engine in C. Between its plumbing sit algorithms that must be right for every input and
every run. This project models them in Dafny, step by step where the C code works step by step, and proves what
they are for. `dafny verify dfyconfig.toml` checks all of it.

| files | models | what is proved of it |
|---|---|---|
| `Dom*.dfy` | the node tree of `src/dom.c` with its id, class and tag indexes, and the edits of `src/js.c` that keep them | after every build, insertion, move and removal the indexes answer as a plain walk would; when they do not, exactly when |
| `Css*.dfy` | the component parser and the fast scanner of `src/css_syntax.c` | on which inputs the parser stops, and that it returns exactly the list that a grammar of the text tells; the scanner finds the parser's components; `valid` means balanced; spans nest |
| `Media*.dfy` | the media query parser, evaluator and serializer of `src/css_media.c` | what a list of queries says of a device, from its text; a list and its serialization match the same devices |
| `Event*.dfy` | the life of an EventSource and its stream parser in `src/eventsource.c` | no use after destruction, no callback after closing, no dispatch lost, whatever the interleaving; what each kind of line does to the message; chunks do not matter, or exactly when they do |
| `Ext*.dfy` | the request filter of `src/ext.c` | the matcher accepts its language; when a request is blocked, by labels of hosts and by sites; the host hash decides as the rules would |
| `Calendar` | `src/datetime.c` | day numbers and dates are inverse; weeks fill the years |
| `TreeWalk`, `Xml*.dfy` | tree conversion and the tag checker of `src/html_lexbor.c`, the XML serializer of `src/dom.c` | the stack walk is structural recursion; the checker accepts exactly the texts of nested tags, and what the serializer writes; that reads back as the tree it was written from |
| `Anim*.dfy` | `src/anim.c` | the shared count and the active set are right over every run; the events of an animation and of a transition |
| `BytecodeCache`, `BytecodeRuns` | `src/bytecode_cache.c` | byte count, eviction and answers under every interleaving |
| `Freenet*.dfy` | `src/freenet.c` | addresses survive the way to the gateway and back |
| `CacheVary`, `CacheRows` | row selection in `src/cache.c` | a row is found exactly when its response answers the request |

`Common`, `Strings`, `Totals` and `Locks` hold what several of them share. A keyed fact, as `Locks` explains, says
no more than the fact; the key only keeps the solver from unfolding it everywhere.

The classes hold the fields of the C objects and their methods change them as the C functions do. Each such method
is tied to a value: the forest that the pointers encode, the tables that an index holds, the state of a parser.
The lemmas speak of these values.

## Findings

Where the code does not have a property that one would expect of it, the property is proved under its exact
condition, and a lemma or a method is about a case in which it fails.

- A script sets a class or an id on an element that is not in the document, as scripts do right after creating one.
  The element is filed and counted all the same (`src/js.c:23391-23422`), and the indexes are wrong
  (`DomOrphans.GiveClass`, `DomOrphans.GiveId`). `DomDocument.SetClass` and `DomDocument.SetId` say exactly when.
  Appending the element makes the class index right again and keeps look-ups of ids right
  (`DomOrphans.OrdinaryScript`).
- Moving or removing a node in a detached tree uncounts ids that were never counted. `DomDocument.MovedExactIds`,
  `DomDocument.MovedFinds` and `DomDocument.RemovedFinds` say exactly when the counts and the look-ups stay right;
  after the edits of `DomSharedIds.SharedIdIsMissed` getElementById misses an element of the document. The class and
  tag indexes are right in every case.
- The component parser makes no progress at an escaped newline outside strings, comments and longer tokens, and its
  list then grows for ever (`CssHalting.EscapedNewlineHangs`). `CssHalting.ParserStops` is the exact condition on the
  input, and everything else that is proved of the parser holds under it.
- The verdict on an event that is too long depends on where the network cuts the stream: the rest of the chunk is
  still parsed, the next chunk is not (`EventStream.CutMakesADifference`, `EventStream.ChunksMatter`).
- The serialization of a calc() is frozen at the viewport where it was written (`MediaLists.CalcIsFrozen`,
  `MediaLists.TermIsFrozen`, `MediaLists.UnitIsFrozen`).
- Serializing a condition in two or more pairs of parentheses drops one pair each time, so that the text has no
  fixed form at once (`MediaLists.WritingTwice`, `MediaLists.ThreePairs`). It matches the same all along.
- The serializer prints integers with `%g`, which writes an exponent for large ones, and a whole number reads back
  exactly if its numeral is digits and maybe a sign (`MediaValues.WholeReadsDigits`, `MediaValues.MillionIsLost`).
- A keyframe animation of more than 10^9 iterations never ends, because the iteration is cut off there before it is
  compared (`AnimEvents.NeverEnds`). A tick so late that the number of iterations does not fit an int tells the
  remaining iterations or not as the machine converts it (`AnimEvents.ToldExactly`, `AnimEvents.LateTick`).
- An animation that is paused in its delay begins when it is resumed: the rest of the delay is lost, unlike in CSS
  Animations Level 1 ("The animation-play-state property"), where it resumes from where it was (`AnimEvents.PauseShifts`,
  `AnimEvents.DelayIsLost`).
- The serializer of an element inside a tree goes by the declarations around the element and does not write them. A
  prefix is then read in its name space exactly if the element declares it itself (`XmlSpaces.WrittenAlone`).
- A gateway configured with a path, query or fragment is used to fetch, but its URLs are not recognised as addresses
  (`FreenetGateway.GatewayLeadsBack`, `FreenetGateway.PathIsNotRead`).
- A response that was stored last is not what a look-up finds if an older one with another Vary field answers the
  same request: the first row in the table's order wins (`CacheRows.PutAnswers`, `CacheRows.TwoAnswer`).
- A base key is made with a separator that an address to look up is not checked for. `CacheRows.ToldApart` says
  exactly which addresses are taken for others, and `CacheRows.AliasedExample` is one.

## Model

| member | source | states |
|---|---|---|
| DomForest.BeforeTotal | src/dom.c:1476-1506 | Two different nodes of one tree always have a document order; with `BeforeAsymmetric` and `BeforeTransitive` it is a strict total order on a tree |
| DomForest.BeforeTransitive | src/dom.c:1476-1506 | Document order, defined by the chains from the root, is transitive |
| DomForest.BeforeAsymmetric | src/dom.c:1476-1506 | No two nodes precede each other |
| DomForest.BeforeSameRoot | src/dom.c:1476-1506 | Nodes of different trees are not ordered |
| DomForest.PreorderIsDocumentOrder | src/dom.c:1476-1506 | The preorder of a subtree holds each of its nodes once and is sorted by document order: the order defined by chains is the preorder of the tree |
| DomForest.SortedUnique | src/dom.c:1510-1537 | A sorted array is determined by its elements |
| DomTree.Detach | src/dom.c:940-957 | The pointers describe the forest without the edge to the parent: sibling links, first and last child, parent; nothing else changes |
| DomTree.AppendChild | src/dom.c:959-973 | The pointers describe the forest in which the child, wherever it was, is the last child of the parent |
| DomTree.InsertBefore | src/js.c:27861-27874 | The pointers describe the forest in which the new child stands immediately before the reference; nothing happens if the two are one node |
| DomTree.Contains | src/dom.c:2050-2056 | True exactly for the node itself and its ancestors |
| DomTree.DocumentOrderCmp | src/dom.c:1476-1506 | Negative exactly if `a` precedes `b`, positive exactly if `b` precedes `a`, so zero for one node and for nodes of different trees; no depth limit |
| DomTree.CompareSiblings | src/dom.c:1492-1505 | The scan in both directions finds which of two siblings comes first |
| DomMoves.OrderKept | src/dom.c:1510-1537 | Grafting or cutting a subtree does not reorder the nodes outside it, so arrays stay sorted when others move |
| DomVisible.VisibleUnfolds | src/dom.c:1624-1636 | What the recursive index walk covers is the set of nodes visible through the walk’s own stops at templates and embedded documents |
| DomVisible.VisibleAfterGraft | src/dom.c:1667-1672 | Linking a subtree makes visible exactly what its own walk covers, if its new parent was visible, and hides nothing |
| DomScene.NextToken | src/dom.c:1596-1608 | The two inner loops of a class scan yield the next longest run without white space |
| DomIndex.OrderedInsert | src/dom.c:1510-1537 | The array stays sorted and gains exactly the node, without a duplicate; a node of another tree is dropped unless the array is empty |
| DomIndex.SearchInsert | src/dom.c:1522-1536 | The binary search inserts where everything before precedes the node and everything behind follows it |
| DomIndex.RemoveFirst | src/dom.c:1565-1588 | Removal takes out the one occurrence and keeps the order of the rest |
| DomIndex.AddKey | src/dom.c:1539-1563 | After adding, the arrays hold exactly the old entries and the new one |
| DomIndex.RemoveKey | src/dom.c:1565-1588 | After removal the arrays hold exactly the old entries without the one |
| DomIndex.Register | src/dom.c:1596-1608 | All tokens of a class attribute are entered, once each; for a node outside the tree, only those that no array stands in the way of |
| DomIndex.Unregister | src/dom.c:1610-1622 | All tokens of a class attribute are withdrawn |
| DomIndex.TagKey | src/dom.c:1681-1702 | The key of a tag is its lower-case form, copied or not |
| DomIndexWalk.AddSubtree | src/dom.c:1624-1636 | The walk enters exactly the covered nodes of the subtree, and the arrays stay sorted, whether the index is being built or edited |
| DomIndexWalk.RemoveSubtree | src/dom.c:1638-1650 | The walk withdraws exactly the covered nodes, with arrays sorted by the order before or after the unlinking |
| DomIds.Count | src/dom.c:1378-1393 | The count of an id goes up by one, or down by one but not below zero |
| DomIds.RegisterId | src/dom.c:1395-1402 | The tables change by one entered node: its id counts one more, and is filed under it if it had no entry |
| DomIds.UnregisterId | src/dom.c:1404-1411 | The tables change by one withdrawn node: its id counts one less, and an entry that names it is gone |
| DomIds.AddIds | src/dom.c:1413-1425 | The walk enters exactly the nodes that it covers |
| DomIds.RemoveIds | src/dom.c:1442-1454 | The walk withdraws exactly the nodes that it covers |
| DomIds.EnteredExact | src/dom.c:1395-1402 | Entering new nodes keeps tables that describe a set of nodes exactly exact for the larger set |
| DomIds.WithdrawnExact | src/dom.c:1442-1454 | Withdrawing leaves the counts exact if and only if no node that stays carries the id of a withdrawn node that was never entered |
| DomIds.EnteredUsable | src/dom.c:1413-1425 | Entering visible nodes keeps the entries exactly as good as they were, and lists exactly their ids in addition |
| DomIds.WithdrawnUsable | src/dom.c:1442-1454 | Withdrawing leaves an id listed exactly if it was counted more often than it is withdrawn or has an entry that stays, and keeps exactly the other entries |
| DomIds.FindInTree | src/dom.c:1361-1376 | The plain walk returns the first covered element, in document order, that carries the id |
| DomIds.FindById | src/dom.c:1790-1812 | Whatever the tables hold: any answer carries the id and lies under the root, and it is what the walk allows (null exactly when the walk finds nothing, the walk’s element if only one carries the id) if and only if the id is listed when it is carried and its entry is not stale in a hidden place; the repair keeps what look-ups rely on, and exact tables exact |
| DomIds.UsableIsRight | src/dom.c:1790-1812 | What all look-ups rely on is what each of them relies on |
| DomIds.WalkAndRepair | src/dom.c:1800-1811 | After a miss the walk’s answer is returned and filed |
| DomDocument.Build | src/dom.c:1652-1665 | The three builds leave indexes that describe exactly what is visible from the document |
| DomDocument.IndexAdded | src/js.c:23283-23303 | The three additions of an edit enter exactly what became visible |
| DomDocument.IndexRemoved | src/js.c:23283-23303 | The three removals of an edit withdraw exactly what the walk covers |
| DomDocument.AppendIndexed | src/js.c:27752-27823 | appendChild of a node from anywhere, other than a fragment, with class entries in its subtree that did not belong there: see the four rows below for what MovedRight says |
| DomDocument.MovedKeys | src/js.c:27752-27823 | After a move the class and tag indexes describe the document with the node moved, but for the entries too many that the removal walk has left, and are right exactly if these belong there now |
| DomDocument.MovedExactIds | src/js.c:27752-27823 | Exact id tables are exact again if and only if no node that stays visible carries an id that the removal walk uncounted without its ever being counted |
| DomDocument.MovedFinds | src/js.c:27752-27823 | Look-ups that were right are right again if and only if the ids carried elsewhere stay listed and, below the document, no entry names a hidden node of the moved subtree |
| DomDocument.MovedUsable | src/js.c:27752-27823 | The same on the tables: what two walks do to what look-ups rely on |
| DomDocument.InsertIndexed | src/js.c:28026-28104 | insertBefore, from anywhere: the same, with the node in front of the reference |
| DomDocument.RemoveIndexed | src/js.c:27825-27851 | removeChild, in the document or in a detached tree: the same, walking the subtree after it is unlinked |
| DomDocument.RemovedExactIds | src/js.c:27825-27851 | Exact id tables are exact again after a removal if and only if no node that stays visible carries an id of the removed subtree that was never counted |
| DomDocument.RemovedFinds | src/js.c:27825-27851 | Look-ups that were right are right after a removal if and only if every id that is still carried was counted more often than it is withdrawn or has an entry that stays |
| DomDocument.VisibleHasNoStrays | src/js.c:27853-27859 | For a node that is visible, or in no tree, the condition on ids always holds |
| DomDocument.SetClass | src/js.c:23391-23422 | A class change on any element, in the document or not, also if it was filed before without belonging there: exactly which entries are too many then, and that the index is right if and only if the element is visible, or has no class any more, or is outside the document with every class already carried by a visible element |
| DomDocument.SetId | src/js.c:23391-23422 | An id change on any element, from any tables with which look-ups are right: when exact tables stay exact, and when look-ups stay right, each as an if-and-only-if |
| DomDocument.ArrayIsWalk | src/dom.c:1778-1788 | The array of a key is the preorder of the document restricted to the visible elements that carry the key: every query is answered as by a plain walk |
| DomOrphans.GiveClass | src/js.c:23409-23417 | An element in no tree is given a class: it is filed, and the class index is wrong |
| DomOrphans.GiveId | src/js.c:23400-23408 | An element in no tree is given an id: it is counted, so that the tables are not exact any more, but look-ups are right |
| DomOrphans.OrdinaryScript | src/js.c:27752-27823 | createElement, id, className, appendChild, getElementById: the element is found, and the class and tag indexes are right again |
| DomSharedIds.SharedIdIsMissed | src/dom.c:1442-1454 | A script of five edits after which the document holds an element with its id and getElementById finds nothing |
| CssSyntax.EscapeEnd | src/css_syntax.c:32-52 | The end of an escape is behind its backslash, or the start if there is none |
| CssSyntax.FindEscapeEnd | src/css_syntax.c:32-52 | The loop form agrees with the specification |
| CssSyntax.FindNameEnd | src/css_syntax.c:54-71 | The loop form agrees with the specification |
| CssSyntax.FindNumberEnd | src/css_syntax.c:87-109 | The loop form agrees with the specification |
| CssSyntax.Parser.SkipComment | src/css_syntax.c:129-141 | The cursor ends behind the comment, or at the end of the input |
| CssSyntax.Parser.ConsumeString | src/css_syntax.c:146-180 | Value, end and verdict of a string: a raw newline or an end of input inside it is told from a closing quote |
| CssSyntax.Parser.ConsumeNumeric | src/css_syntax.c:182-207 | The method on the cursor takes what the pure parser takes: a number, percentage or dimension; CssExact.ParsedExactly says which |
| CssSyntax.Parser.ConsumeIdent | src/css_syntax.c:209-236 | An identifier, function, at-keyword or hash, with its exact span |
| CssSyntax.Parser.ConsumeComponent | src/css_syntax.c:238-281 | The recursive-descent machine with a cursor and a flag returns what the pure parser returns, and moves the cursor by the component’s span |
| CssSyntax.Parser.ParseComponents | src/css_syntax.c:283-308 | The same for a list up to its closing bracket |
| CssSyntax.Parse | src/css_syntax.c:310-321 | The public entry returns the pure parser’s list and verdict and reads the whole input |
| CssSyntax.TopLevelReadsAll | src/css_syntax.c:310-321 | At the top level the list ends at the end of the input |
| CssText.NumberIsLongest | src/css_syntax.c:87-109 | No numeral, as a grammar of signs, digits, fraction and exponent has it, is longer than what the number loop takes |
| CssText.NumberIsNumeral | src/css_syntax.c:87-109 | And what it takes is one |
| CssText.NameFound | src/css_syntax.c:54-71 | The name loop ends where the longest name ends, of name characters and escapes of up to six hexadecimal digits |
| CssText.StringFound | src/css_syntax.c:146-180 | A string’s content holds no raw closing quote, and what closes it, or fails to, stands behind it |
| CssText.ListTells | src/css_syntax.c:283-308 | Every component that the parser returns, at every depth, tells what its own text says, by a grammar without the parser: its kind, value, number, delimiter and children |
| CssExact.ComponentIs | src/css_syntax.c:238-281 | And a component that tells what the text says is the one that the parser returns there |
| CssExact.ParsedExactly | src/css_syntax.c:310-321 | A list tells what the text says if and only if it is the list that the parser returns, so that "50%" is a percentage and nothing else |
| CssHalting.ParserStops | src/css_syntax.c:283-308 | The parser as written, with a cursor that may stand still and cut off after some steps, comes to its end for some number of steps if and only if no token of the input begins with a backslash and a newline; two steps a character are then enough, and the result is that of the pure parser |
| CssHalting.EscapedNewlineHangs | src/css_syntax.c:238-308 | On a backslash and a newline no number of steps is enough |
| CssHalting.EscapedNewlineInComment | src/css_syntax.c:129-141 | In a comment the same two characters do no harm |
| CssSyntax.NoPairUnstuck | src/css_syntax.c:283-308 | That condition holds for every input without a backslash in front of a newline |
| CssScan.ScanFor | src/css_syntax.c:323-371 | The scanner’s loop with bracket stack, quote state and cursor finds what its recursive specification finds, and names the terminator |
| CssScan.ValidIsBalanced | src/css_syntax.c:238-308 | `valid` is true if and only if every closing bracket outside strings, comments and escapes closes the innermost open one and no string holds a raw newline |
| CssScan.ScanFindsComponent | src/css_syntax.c:323-371 | On input that the parser calls valid, nested at most as deep as the scanner’s stack, the scanner stops exactly where the first top-level component that begins with a terminator starts |
| CssScan.ListLaid | src/css_syntax.c:283-308 | Spans are not empty, siblings are ordered and disjoint, and children lie strictly inside their parents |
| CssScan.ConsumeRun | src/css_syntax.c:238-281 | One component read by the parser and the stretch of characters that the scanner and the balance check make of it agree, for every kind of component |
| MediaSyntax.CloseParen | src/css_media.c:310-320 | The closing parenthesis is in the text, or the end if there is none |
| MediaValues.ValueRoundTrip | src/css_media.c:494-610 | Every value, written and read again, is the same value: numbers, lengths, resolutions, ratios, keywords and computed values |
| MediaValues.WholeReadsDigits | src/css_media.c:1136-1163 | What is written for a whole number reads back if and only if it is digits and maybe a sign, and 0 or 1 for the feature grid |
| MediaValues.MillionIsLost | src/css_media.c:1136-1163 | A million, which `%g` writes as 1e+06, does not read back |
| MediaFeatures.TestReads | src/css_media.c:654-753 | Every feature test in plain, min/max, one-sided and two-sided form is read back from its text |
| MediaRoundTrip.TestNoCondition | src/css_media.c:758-800 | The text of a feature test is never taken for a condition |
| MediaRoundTrip.RulesSuit | src/css_media.c:654-753 | The source’s own feature parser and printer meet the assumptions under which conditions are read back |
| MediaViewports.FeaturesNamed | src/css_media.c:154-190 | The feature table meets the assumption on names |
| MediaConditions.ConditionReads | src/css_media.c:802-851 | Every legal condition is read back from its text at every depth, with `and`, `or`, `not` and nested parentheses |
| MediaConditions.ConditionText | src/css_media.c:1178-1237 | Below the depth limit, the printer writes a condition without cutting it off |
| MediaQueries.TopText | src/css_media.c:1178-1237 | At the top the printer drops the parentheses of a lone group; what it writes is the text of the group’s content |
| MediaQueries.TopEval | src/css_media.c:1044-1073 | Dropping them does not change what the condition evaluates to |
| MediaQueries.TypedReads | src/css_media.c:861-909 | A query with a media type, `not` or `only` and a trailing condition is read back from its text |
| MediaShape.TestParsed | src/css_media.c:654-753 | Whatever the feature parser returns, if its numerals are exact, can be written so that it is read again |
| MediaShape.ConditionParsed | src/css_media.c:802-851 | So can every condition that the parser returns, if it holds no enclosed text |
| MediaLists.QueryParsed | src/css_media.c:861-909 | So can every query |
| MediaLists.QueryTextReads | src/css_media.c:1239-1259 | The text of a query is read as that query, the parentheses at the top aside, and contains no comma that would split it |
| MediaLists.BackEval | src/css_media.c:1085-1093 | The query that is read again evaluates the same on every device |
| MediaEval.QueryMatches | src/css_media.c:1116-1134 | The loop over the segments matches exactly if some query of the list does; MediaMeaning.MatchesMeans says what that means |
| MediaMeaning.CompareMeans | src/css_media.c:984-997 | Comparing cross products is comparing the quotients, those by zero included, with each of the five operators |
| MediaMeaning.TestMeans | src/css_media.c:999-1042 | A feature test is true exactly if the device’s amount is at least (`min-`), at most (`max-`) or as its sign says in relation to the value, in ranges on both sides; a keyword exactly if the device shows it; a lone name if there is something of it |
| MediaMeaning.RangeIsMinAndMax | src/css_media.c:999-1042 | `a <= f <= b` says what `(min-f: a)` and `(max-f: b)` say together |
| MediaMeaning.UnitsOfLength | src/css_media.c:340-361 | Absolute units in proportion to each other: an inch is 96 pixels, 2.54 centimetres, 72 points, 6 picas |
| MediaMeaning.PartsOfViewport | src/css_media.c:340-361 | Parts of the viewport count in proportion to its width, height, smaller or larger side |
| MediaMeaning.VerdictIsRight | src/css_media.c:1044-1073 | Whatever stands in enclosed text that no grammar covers, a verdict of yes or no is what `not`, `and` and `or` make of the parts; only an open one depends on it |
| MediaMeaning.QueryMeans | src/css_media.c:1085-1093 | A query that was read and encloses nothing says what its media type, `not` and its condition say in two-valued logic |
| MediaMeaning.MatchesMeans | src/css_media.c:1116-1134 | A list matches a device exactly if it is blank or what one of its queries says is so |
| MediaReading.SpelledReads | src/css_media.c:861-909 | A query spelled out, with its `min-`, `max-`, signs, `and`, `or`, `not`, `only`, and the value before or behind the name, is read as the query that it spells |
| MediaReading.SpelledListMeans | src/css_media.c:1116-1134 | A list spelled out, with commas, matches a device exactly if what one of its queries says is so: the meaning of the text, without the parser and the evaluator |
| MediaReading.MinAndMaxWidth | src/css_media.c:654-753 | For instance "(min-width: …px)" matches exactly where the viewport is at least that wide, "(max-width: …px)" where it is at most that wide |
| MediaText.SerializeList | src/css_media.c:1261-1286 | The loop over the segments writes the specified text |
| MediaLists.SegmentsRead | src/css_media.c:1261-1286 | The list that is read again has the same queries, `not all` for those that were invalid, and one more for a comma at the end |
| MediaLists.ReadBackMatches | src/css_media.c:1116-1134 | The two lists match the same |
| MediaLists.ListRoundTrip | src/css_media.c:1261-1286 | For every list without enclosed parts and with exact numerals, and every device: the serialization matches if and only if the list does |
| MediaViewports.ListRoundTripAnywhere | src/css_media.c:1261-1286 | If no calc() stands in the list, that holds whatever the viewport was when the list was written |
| MediaLists.CalcIsFrozen | src/css_media.c:1136-1163 | Whatever stands in a calc(), its serialization comes on every viewport to what the calc() came to where it was written |
| MediaLists.TermIsFrozen | src/css_media.c:1136-1163 | For one number with a unit, that is what the calc() itself comes to elsewhere exactly if the unit comes to the same on both viewports |
| MediaLists.UnitIsFrozen | src/css_media.c:340-361 | A length in vw, vh, vmin or vmax comes to the same on two viewports if and only if the width, the height, the smaller or the larger of them is the same on both |
| MediaLists.WritingTwice | src/css_media.c:1178-1237 | Writing, reading and writing again gives the same text, except exactly for a condition in two or more pairs of parentheses, which loses one pair each time |
| MediaLists.ThreePairs | src/css_media.c:1178-1237 | "(((width)))" is written as "((width))", and that as "(width)" |
| EventProtocol.StepKeeps | src/eventsource.c:62-100 | Every step of worker, main loop and owner keeps the invariant |
| EventProtocol.Accounting | src/eventsource.c:31-60 | In every reachable state the refcount is owner plus worker plus posts under way plus queued and running dispatches, pending is at most 256, and the object is destroyed exactly when nobody holds it |
| EventProtocol.NoUseAfterDestroy | src/eventsource.c:38-53 | No enabled step that touches the object can happen after its destruction |
| EventProtocol.NoCallbackAfterDetach | src/eventsource.c:427-438 | No callback begins once ns_es_free has set `detached`, nor after it has returned, although a callback may itself free the object |
| EventProtocol.JoinReturns | src/eventsource.c:427-438 | Whenever the main thread waits in the join, steps of the worker alone let it return |
| EventProtocol.Drains | src/eventsource.c:62-79 | After the owner has freed the object, running the queued dispatches destroys it |
| EventProtocol.FlagsStay | src/eventsource.c:420-438 | `detached`, `exit` and destruction never go back |
| EventDispatches.DispatchesCounted | src/eventsource.c:62-100 | In every run: enqueued dispatches and those put back are those begun and those in the queue; those begun are those put back, finished or on the main thread |
| EventDispatches.Delivered | src/eventsource.c:62-79 | While the object is not detached, from a free main thread a waiting dispatch whose owner is not busy, or has no busy callback, reaches its callback |
| EventDispatches.PutBack | src/eventsource.c:67-73 | If the owner is busy, everything is as if the dispatch had not been tried |
| EventDispatches.Finished | src/eventsource.c:62-79 | When the callback returns, the dispatch gives up its place among the pending ones and its reference |
| EventDispatches.Posted | src/eventsource.c:81-100 | A post enqueues one dispatch, counted and with a reference, unless the object is detached or 256 are pending; then it changes nothing |
| EventWords.EveryDispatch | src/eventsource.c:62-79 | In every run, with nested main loops, each dispatch takes its own steps in the order of the source and ends as put back or finished |
| EventWords.PutBackIsLast | src/eventsource.c:67-73 | A dispatch that was put back never calls its callback |
| EventStream.Parser.DispatchEvent | src/eventsource.c:157-178 | The method on the fields does what the pure step does |
| EventStream.Parser.ProcessLine | src/eventsource.c:180-226 | So does the processing of a line, with its fields, its comments and its retry digits |
| EventStream.Parser.FeedBytes | src/eventsource.c:228-246 | So does the loop over the bytes, with the early end when a line is too long |
| EventStream.FeedIsLines | src/eventsource.c:228-246 | Feeding bytes does what processing one by one the lines of the standard’s definition does, for every mix of CR, LF and CRLF |
| EventStream.WriteSplits | src/eventsource.c:289-298 | Two writes are one write when the first did not fail, had failed before or stopped at a line that is too long |
| EventStream.ChunksMatter | src/eventsource.c:289-298 | The messages of two writes are those of one write if and only if the first has not failed, or stopped at a line that is too long, or the second would post nothing |
| EventStream.FeedPosts | src/eventsource.c:157-178 | Messages are only added, and none is added exactly if no byte ends an empty line behind collected data |
| EventStream.CutMakesADifference | src/eventsource.c:289-298 | From a fresh parser: nine long data lines and an empty line post one message in one chunk and none if the cut is before the empty line |
| EventEntries.LineGives | src/eventsource.c:180-226 | Each kind of line as it is written (event, id, retry, data, comment) is read as what it gives, with one blank behind the colon left out |
| EventEntries.EntriesRead | src/eventsource.c:180-226 | After any such lines, in any order: the type is that of the last event line, the last id that of the last id line, the retry time that of the last retry line of digits, the data are the values of the data lines |
| EventEntries.OneEvent | src/eventsource.c:157-226 | Lines and an empty line post one message if there is a data line among them and none otherwise: its data are the values joined by line feeds, its type that of the last event line or `message`, its id that of the last id line, of whichever event |
| EventEntries.BytesPostOneEvent | src/eventsource.c:157-246 | So do their bytes, fed to the parser |
| EventStream.FeedSound | src/eventsource.c:157-246 | The line and the collected data never exceed their limits |
| ExtPattern.MatchHere | src/ext.c:1219-1242 | The backtracking matcher with its loop behind stars decides its specification |
| ExtPattern.MatchIsLanguage | src/ext.c:1219-1242 | The matcher accepts exactly the language of literals, `*` for anything and `^` for a separator or the end, anchored or not |
| ExtPattern.FilterMatch | src/ext.c:1244-1274 | Where a filter may match: at a label of the host behind `||`, at the start behind `|`, otherwise anywhere; at the end before a closing `|` |
| ExtFilter.HostIndexed | src/ext.c:1386-1397 | True exactly if the host or one of its suffixes that begin at a label is in the hash |
| ExtFilter.RuleMatch | src/ext.c:1399-1430 | The chain of tests decides the specification of a rule match |
| ExtFilter.SumsDecide | src/ext.c:1432-1469 | The three variables of the fold block exactly if some hit of the highest non-negative priority blocks and none of that priority allows |
| ExtFilter.ShouldBlock | src/ext.c:1432-1469 | The loops over extensions, rules and hosts decide exactly that, on the set of all hits |
| ExtHosts.SimpleHost | src/ext.c:736-744 | The loop decides which patterns name a plain host |
| ExtHosts.ParsePlain | src/ext.c:746-822 | Where a line without options goes: into the hash of hosts or into the rules, with priority 1 |
| ExtHosts.HostOfPlain | src/ext.c:95-127 | The URL splitter finds the host of every plain http(s) URL |
| ExtHosts.RuleIsHash | src/ext.c:1244-1274 | The pattern `||host^` matches a plain URL if and only if the host or a suffix of it at a label is that host |
| ExtHosts.HashChangesNothing | src/ext.c:1432-1469 | For every plain request, keeping the rule in the hash decides as keeping it at any place in any extension’s rules |
| ExtRules.DomainCovers | src/ext.c:1276-1284 | A domain covers exactly itself and its subdomains, label by label |
| ExtRules.ThirdPartyTells | src/ext.c:1370-1384 | Same site exactly if both hosts are there and are equal without their ports or have one registrable domain, third party exactly if both are there otherwise, unknown if one is not; symmetric |
| ExtRules.PortStripped | src/ext.c:1358-1368 | A host is what stands in brackets, with them, or before the first colon |
| ExtRules.HostOfUrl | src/ext.c:95-127 | The host of a URL stands behind its user information and before its port, also in brackets, and is told in small letters |
| ExtRules.WordFound | src/ext.c:1244-1274 | A filter that is a plain word is found anywhere, behind `|` at the start, before a closing `|` at the end, behind `||` where a label of the host begins |
| ExtRules.RuleApplies | src/ext.c:1399-1430 | A rule matches exactly if its pattern is found, the type is one of its types and none of the excluded ones, the parties are as it says, and the hosts are covered by its lists and by none of the excluding ones |
| ExtRules.IndexedIsListed | src/ext.c:1386-1397 | The look-up in the hash finds exactly the hosts that a domain of it covers |
| ExtRules.BlocksMeans | src/ext.c:1432-1469 | A request is blocked exactly if it is an http(s) request, an extension is loaded, and of what applies to it the highest priority blocks: nothing of that priority allows and nothing stands above it |
| ExtRules.SiteRuleHasNoSay | src/ext.c:1399-1469 | A third-party rule, anywhere in any extension, changes no decision on a request that is not from a third party, and a same-site rule none on a request that is not from the same site |
| Calendar.FloorMod | src/datetime.c:8-14 | The remainder has the sign of the modulus, and is the mathematical one for a positive modulus |
| Calendar.ClosedForm | src/datetime.c:16-25 | The closed formula with eras is the number of days counted year by year and month by month |
| Calendar.DayRoundTrip | src/datetime.c:27-42 | Every day number, negative ones too, is the number of the valid date that it is turned into |
| Calendar.DateRoundTrip | src/datetime.c:16-42 | Every valid date comes back |
| Calendar.NextDayIsOneMore | src/datetime.c:44-54 | The next day of the calendar, by the lengths of the months, has the next number |
| Calendar.LaterDateLaterDay | src/datetime.c:16-25 | Day numbers follow the order of dates |
| Calendar.Week1 | src/datetime.c:65-71 | Week 1 starts on a Monday and contains 4 January |
| Calendar.WeeksFillTheYear | src/datetime.c:56-63 | From one week 1 to the next it is exactly as many weeks as the year has, for every year from 1 on |
| Calendar.LaterWeekStartsLater | src/dom.c:182-194 | Later weeks start later by at least seven days, across years |
| Calendar.EveryMondayIsAWeek | src/dom.c:182-194 | Every Monday from the first week on is the start of a week |
| TreeWalk.ConvertOne | src/html_lexbor.c:165-200 | One round makes, appends and queues a node and keeps what the whole tree will be |
| TreeWalk.Descend | src/html_lexbor.c:165-200 | So does following first children and skipped siblings |
| TreeWalk.WalkInto | src/html_lexbor.c:165-200 | The explicit-stack walk terminates and builds what structural recursion builds: children in source order, nodes without a counterpart dropped with all below them, template content in its fragment |
| TreeWalk.BuiltReadsAlike | src/html_lexbor.c:79-139 | Who reads the tree that is built meets what the parser has read, in its order: elements by name, character data, remarks, document types, template contents |
| XmlTokens.SkipUntil | src/html_lexbor.c:515-524 | The loop finds the first delimiter |
| XmlTokens.FindTagEnd | src/html_lexbor.c:585-594 | The loop finds the first `>` outside quotes |
| XmlTokens.WellFormed | src/html_lexbor.c:546-635 | The loop with its stack of names decides its recursive specification |
| XmlTokens.CheckIsRun | src/html_lexbor.c:546-635 | On text made of legal markup tokens the checker accepts exactly if the stack machine on tokens does |
| XmlNesting.AcceptsDocuments | src/html_lexbor.c:546-635 | So it accepts exactly the texts of lists of trees of which exactly one is an element: every end tag closes the innermost open element by its name |
| XmlSerialize.Writer.AppendEscaped | src/dom.c:2393-2420 | The loop appends the escaped text, which XmlReading.EscapeDecoded decodes |
| XmlSerialize.Writer.AppendAttrs | src/dom.c:2623-2682 | The loop over the attributes appends each with its prefix and declaration |
| XmlSerialize.Writer.Serialize | src/dom.c:2520-2711 | The recursive writer appends the text of the specified tokens and numbers the generated prefixes on |
| XmlSerialize.OuterXml | src/dom.c:2713-2720 | The public entry returns the text of the specified tokens, which XmlTree.OuterXmlReadsBack reads back |
| XmlSerialize.HeadLegal | src/dom.c:2520-2711 | Every start tag is legal, whatever prefixes are found or made up |
| XmlSerialize.OuterXmlIsWellFormed | src/dom.c:2713-2720 | The checker of src/html_lexbor.c accepts what the serializer writes for every element with legal names and no text that holds its own end mark: generated prefixes, void elements and the cut-off at depth 512 included |
| XmlReading.EscapeDecoded | src/dom.c:2393-2420 | Decoding what has been escaped, by a decoder for the entities and character references, gives the text back, for texts and for values of attributes |
| XmlReading.WrittenRead | src/dom.c:2623-2682 | Attributes are read with the names and values that they were written with, in order |
| XmlReading.AttrsPairs | src/dom.c:2623-2682 | What is written of the attributes are exactly those that are not internal, by their local names, in order, and declarations |
| XmlTree.OuterXmlReadsBack | src/dom.c:2520-2720 | Reading what is written of any node gives the node back, down to the cut-off at depth 512: local names, attributes with their values, texts, comments, sections, instructions and document types, in order |
| XmlSpaces.NameSpacesReadBack | src/dom.c:2520-2720 | And, for a tree from its root whose declarations fit its names, every element and every attribute in its name space |
| XmlSpaces.WrittenAlone | src/dom.c:2713-2720 | An element inside a tree that is written with a prefix is read in its name space if and only if it declares that prefix itself |
| Totals.TotalWithout | src/bytecode_cache.c:155-178 | A sum over a table is any entry plus the sum over the rest |
| BytecodeCache.Cache.FindOldest | src/bytecode_cache.c:162-172 | The scan finds an entry of least time, or the table is empty |
| BytecodeCache.Cache.EvictUntilFits | src/bytecode_cache.c:155-178 | What goes was not used later than what stays, the last to go had to, and then the new bytes fit |
| BytecodeCache.Cache.LookUp | src/bytecode_cache.c:186-200 | A hit returns the entry’s bytes and refreshes its time; a miss changes nothing |
| BytecodeCache.Cache.Fill | src/bytecode_cache.c:206-218 | What the disk held is added unless another thread has filed the key; byte count and cap are kept |
| BytecodeCache.Cache.Put | src/bytecode_cache.c:231-247 | A new entry is added after evictions; an existing one is refreshed and keeps its bytes |
| BytecodeRuns.StepKeeps | src/bytecode_cache.c:180-252 | Every locked section, disk read and disk write of any thread, and set-up and shutdown, keep the invariant |
| BytecodeRuns.AnswersWereStored | src/bytecode_cache.c:180-252 | In every interleaving: each answer is code stored for that very source, if hashes are distinct, and memory stays within 16 MiB |
| BytecodeRuns.EntriesStay | src/bytecode_cache.c:155-178 | While an entry stays its code does not change; it leaves only for one that is added, when none that stays was used before it |
| Freenet.TakeKey | src/freenet.c:114-129 | A key is valid and what remains is shorter, so that the collapse ends |
| Freenet.SplitUrl | src/freenet.c:131-152 | The loops over slashes and nested prefixes end and find the innermost address |
| Freenet.SplitWritten | src/freenet.c:163-172 | Reading what was written gives the innermost address |
| Freenet.CanonicalIsIdempotent | src/freenet.c:163-172 | A canonical URL is its own canonical URL and names the same key and path |
| Freenet.NestingIsUndone | src/freenet.c:131-152 | An address nested to any depth in gateway paths of others has the canonical URL that it has alone |
| FreenetGateway.PartIsNotGateway | src/freenet.c:571-596 | A gateway configured with a path is never taken for its authority alone, whatever ports, brackets and loopback names it uses |
| FreenetGateway.IndexOnce | src/freenet.c:181-206 | The index document is added at most once |
| FreenetGateway.MapsTo | src/freenet.c:181-218 | An address is served by the configured gateway, over http or web sockets, secure or not as configured, under the path of the contract |
| FreenetGateway.IndexInFront | src/freenet.c:181-206 | A path that is empty or ends with a slash gets the index document, in front of its query and fragment |
| FreenetGateway.GatewayLeadsBack | src/freenet.c:713-740 | A gateway URL leads back to an address if and only if the path is not one of the node’s own and the gateway is configured by an authority alone |
| FreenetGateway.PathIsNotRead | src/freenet.c:571-596 | The gateway "a/b" serves an address, but its URL leads nowhere |
| FreenetGateway.ThereAndBack | src/freenet.c:713-740 | Then it leads to the canonical address with the index document of a directory, and that address to the same gateway URL, over http and over web sockets |
| CacheVary.VarySelector | src/cache.c:140-172 | The token loop builds the selector for the nominated headers, or fails |
| CacheVary.HasSelector | src/cache.c:140-172 | There is a selector exactly when every nominated header is supported and in the request |
| CacheVary.NominatedMeans | src/cache.c:140-172 | The headers that a Vary field nominates are those that its parts between commas name |
| CacheVary.TokenNames | src/cache.c:140-172 | A part names the header that stands in it between white space, in whatever case, unless that is Accept-Encoding |
| CacheVary.ValueRead | src/cache.c:126-138 | The value of a header is what stands behind colon and blanks in the first line of that name, in whatever case |
| CacheVary.SelectorsTellApart | src/cache.c:140-172 | Two requests have one selector if and only if they have the same values of the nominated headers, for headers of one line |
| CacheRows.TaggedApart | src/cache.c:98-110 | What is hashed for a look-up is what is hashed for a response that may be stored exactly if the look-up means its address and partition |
| CacheRows.ToldApart | src/cache.c:98-110 | An address and partition are told from those of every response that may be stored if and only if they are not aliased: what stands before the first separator is no such address, or nothing stands behind it |
| CacheRows.AliasedExample | src/cache.c:98-110 | An address with the separator that means another address in a partition |
| CacheRows.RowKeysApart | src/cache.c:174-185 | Keys of rows differ exactly if the base keys or the selectors do, also between rows with a selector and rows without |
| CacheRows.Table.FindRowKey | src/cache.c:289-309 | The scan returns a row whose key the request leads to, or there is none |
| CacheRows.Table.Put | src/cache.c:634-706 | The new table, and every row stays filed under the key of the request that stored it, although a conflict keeps the old base key |
| CacheRows.HitIsAnswer | src/cache.c:289-309 | For every address: a row is found by a request if and only if its response was for the address and partition that are meant and every nominated header is equal in both requests |
| CacheRows.FoundWhenAnswered | src/cache.c:289-309 | Some row is found exactly when some stored response answers the request for the address that is meant, which is the address itself exactly if it is not aliased |
| CacheRows.PutAnswers | src/cache.c:634-706 | What was put answers the same request, and is what every look-up finds exactly when no other stored response answers too |
| CacheRows.TwoAnswer | src/cache.c:634-706 | Two responses stored for one request, the first without a Vary field, both answer it |
| CacheRows.AcceptIsSelected | src/cache.c:140-172 | A request with an Accept header is such a request |
| AnimSteps.ObserveAccounts | src/anim.c:464-675 | Observing counts every channel that it starts or ends and starts none beyond 64 |
| AnimSteps.TickAccounts | src/anim.c:924-998 | A tick takes from the count exactly what it ends, so that the guards of its decrements do not bind |
| AnimSteps.DropAccounts | src/anim.c:206-229 | Pruning takes from the count exactly the active channels of the state that goes |
| Animations.Animator.Observe | src/anim.c:677-696 | The new states; the count is that of all active channels and at most 64, and the active set is that of the active states |
| Animations.Animator.Tick | src/anim.c:924-998 | Every active state, and no other, is ticked once, each appends its own events, and the count and the active set stay right, in whatever order the set is iterated |
| Animations.Animator.Prune | src/anim.c:206-229 | Exactly the live states stay, and the count and the active set stay right |
| Animations.Animator.Rebase | src/anim.c:231-246 | Start times change and nothing else; the count and the active set stay right |
| Animations.NodesTick | src/anim.c:924-998 | What becomes of a state, and its events, does not depend on the order |
| Animations.NodesKeepSound | src/anim.c:158-177 | Ticking any number of states keeps the count and the active set right |
| AnimEvents.TicksBeforeEnd | src/anim.c:955-979 | Before the end, exactly the start and the complete iterations have been told, however coarse the ticks |
| AnimEvents.Over | src/anim.c:898-912 | An animation past its end ends if and only if it has at most 10^9 iterations |
| AnimEvents.BeginsFresh | src/anim.c:608-675 | Observing a style begins a fresh animation |
| AnimEvents.ToldExactly | src/anim.c:924-998 | One start, iterations 1 to n-1 in order, one end, and nothing later: if and only if the first tick past the end finds a number of iterations that an int holds, or the overflowing conversion is large enough, or all were told before |
| AnimEvents.ExactIs | src/anim.c:938-979 | What is told of an animation are, in order, its start, the ends of its iterations but the last, each at that many durations, and its end at all of them |
| AnimEvents.ProgressIs | src/anim.c:880-897 | An animation has run through as often as its duration fits between the end of its delay and now |
| AnimEvents.LateTick | src/anim.c:963-975 | Two iterations of a millisecond, a first tick after 2^31 milliseconds, and a conversion that gives the least int: the iteration event is missing |
| AnimEvents.PauseShifts | src/anim.c:608-675 | Paused and resumed, an animation goes on as if the time between had not passed if and only if its delay was over when it was paused, or ended within that microsecond |
| AnimEvents.DelayIsLost | src/anim.c:608-675 | Paused in its delay, it begins when it is resumed |
| AnimTransitions.StateTicks | src/anim.c:698-757 | A tick ends exactly the transitions that are due, and sends one event for each |
| AnimTransitions.TransitionTells | src/anim.c:924-998 | At every point of a run of ticks at any times, among steps for other elements: a transition has sent nothing and goes on as long as no tick has come at or after its end, and else has sent one event, at the first such tick, with its duration |
| AnimTransitions.StyleSeen | src/anim.c:497-606 | A style starts exactly the transitions of the properties that have a duration, were seen before and are seen with another value, as long as there is room |
| AnimRuns.TickedKeyframes | src/anim.c:924-998 | A tick of a state tells of its keyframe animation what a tick of the animation alone does |
| AnimRuns.RunTells | src/anim.c:924-998 | In every run of ticks and of steps that concern other elements, an element’s keyframe animation and its events are those of the animation ticked alone |
| AnimRuns.AnimatorTells | src/anim.c:924-998 | So the animator’s events of the element’s keyframe animation are one start, iterations 1 to n-1 in order and one end, under the same condition |
| AnimEvents.NeverEnds | src/anim.c:898-912 | With more than 10^9 iterations no tick ever ends the animation |

Where a row names a method, its contract ties the loop to a specification function and the lemma rows beside it say
what that function means.

## Left out

Of the modelled files:

- `src/dom.c`: attributes other than id and class, node kinds that neither index looks at, memory ownership, cloning,
  HTML serialization. Counts are unbounded numbers. The flag that an index is being built is a parameter, and the
  three near-identical class and tag walks are one, told apart by `Which`.
- DomDocument.AppendIndexed: not for a parent below a template's content or an embedded document (`Shown`), where the
  walk of an addition covers what is not visible; and the tree must stay less than 512 deep (`Shallow`), where the
  walks stop. The same holds for DomDocument.InsertIndexed, and the depth for all walks. Class entries that do not
  belong must be of the moved subtree (`Orphans`); others stand in the way of the elements that are linked. A document
  in no tree is a fragment, whose children the source moves one by one (`NoFragment`).
- DomDocument.SetClass: attributes set by the parser before an index exists are not modelled; what `ns_qcache`,
  mutation records and styles do beside the index is left out.
- `src/js.c`: fragments, custom elements, scripts run on insertion, node iterators and slots.
- CssSyntax.Parse: values of numbers stay text, and NUL is not in the input. A method must end, so this one and those
  of the parser object require an input on which the source ends; CssHalting.ParserStops is about all inputs.
- CssScan.ScanFindsComponent: the terminators are those that the callers use.
- `src/css_media.c`: `strtod`, `%g` and the device are parameters, and strtod does not read past the end of a
  segment. Cursors are slices of the text instead of out-pointers.
- MediaLists.ListRoundTrip: enclosed parts that no grammar covers do not read back when they hold a parenthesis and
  are excluded, and numerals must be printed exactly.
- MediaMeaning.MatchesMeans: for lists that enclose no text outside the grammar; of the others MediaMeaning.VerdictIsRight
  says which verdicts do not depend on it. The sizes of a device are not negative.
- MediaReading.SpelledListMeans: conditions, media types and numerals as the parser may have read them, in small letters
  and with one space where a space is needed.
- MediaLists.TermIsFrozen: for calc() of one number with a unit.
- EventProtocol.Accounting: one word at a time is read or written in sequentially consistent order; connecting,
  headers, reconnection times and curl are left out.
- EventDispatches.Delivered: a run of the main thread's own steps, with no step of another thread in between;
  EventWords.EveryDispatch is about all runs.
- EventEntries.OneEvent: lines without line ends, which fit their limit, with data that fit theirs.
- EventStream.FeedIsLines: lines that fit their limit; a line that is too long ends the stream, as
  EventStream.ChunksMatter says. The source does not strip a byte order mark, and neither does the model.
- `src/ext.c`: option parsing, cosmetic rules, JSON rules, regular expressions. The public suffix list and the type
  guessed from a path are parameters.
- ExtHosts.HashChangesNothing: http(s) URLs whose host is letters, digits, dots and hyphens, with an optional port and
  no user information; on others the URL splitter and the pattern may see different hosts.
- `src/datetime.c`: parsing and printing of dates and times; years are unbounded numbers.
- TreeWalk.WalkInto: what a node holds beside its children and template content is one piece of data; the root was
  just made.
- XmlSerialize.OuterXmlIsWellFormed: the namespace that the checker reports for the root is left out. A document type
  whose identifiers hold a `>` is excluded like other text that holds its end mark.
- XmlTree.OuterXmlReadsBack: names are parts of names, with no colon, space or equals sign, identifiers hold no quote, and
  nothing holds its own end mark.
- XmlSpaces.NameSpacesReadBack: for trees whose declarations fit their names (`TreeFits`). Where they do not fit, the
  serializer makes up prefixes and declarations, and may write two declarations of one name.
- `src/anim.c`: the values that are animated, with their interpolation, timing functions and keyframes, and what a tick
  answers about them. Whether two observed values differ is an input. Time is real arithmetic.
- AnimEvents.ToldExactly: for an animation that is not restarted, paused or rebased on the way, and a machine that
  converts every number too large to the same int. An animation that restarts before its end was sent goes on with
  the old events. AnimRuns.AnimatorTells: events are not sent during the run.
- `src/bytecode_cache.c`: hashing and the file format. A disk write is one step; two threads that write one key at the
  same time share a temporary file name, and what they may do to each other there is not modelled.
- BytecodeRuns.AnswersWereStored: no two sources have one hash.
- Freenet.SplitUrl: the configuration is a parameter; node queries, contract lists and content policies are left out.
- `src/cache.c`: freshness, revalidation, bodies on disk, ageing and eviction. A digest is taken to tell all texts
  apart and to be written in hex digits.
- CacheRows.FoundWhenAnswered: header values without a newline.

Of the repository: networking, storage, GTK, scripting, layout, painting, fonts, images and configuration. Simple
bounded caches and line files repeat the invariants shown here.
