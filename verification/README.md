# libcrange, verified

A Dafny model of libcrange, the library that turns range expressions such as
`foo100..110.example.com,-bar{1,3}` into sets of host names and prints sets of names back as
short expressions. `dafny verify dfyconfig.toml` checks the whole project.

**Printing and reading.** `Decimal`, `Pcre`, `NodeParts`, `NodeRange`, `RangeExpand`,
`NodeReMatch`, `RangeSort`, `RangeCompress`, `RangeGroups`, `Scanner`, `Grammar`, `TokenLists`,
`PrintedRuns` and `RoundTrip` model the compressor and the parser. The two fixed regular
expressions run in a small backtracking matcher and are proved to mean a shortest-prefix split.
Printing a set and expanding the text gives the set back if and only if the set has at most 65536
groups and is outside two families. In the first, `prev_num_str_len` is not refreshed for
unnumbered names, so that some sets with all-digit names of value zero and one, such as
{0, foo, 1}, print a null pointer and expand to nothing. In the second, a run ends at INT_MAX and
begins at 1999999999 or below, so that INT_MAX is printed in full and the expansion loop steps its
counter past it; C gives such a text no value. The parser is any derivation of the full grammar,
so no result depends on how the precedence conflicts are resolved. `ParenLists` shows that no
derivation cuts across items in parentheses.

**The hash set.** `HashSet`, `SetAlgebra`, `SetRemove`, `SetPack` and `SetRuns` model the
chained hash set as a class over linked nodes and a bucket array, with relinking on resize,
unlinking during a walk, and the byte packer. A ghost model holds the chains, the stored links
and the map from names to data; `Valid` ties it to the heap. The hash function is arbitrary.

**Trees and evaluation.** `AstHeap` builds the first-child/next-sibling heap by the parser
actions; `Semantics` says what an expression means, and `ExpressionLaws` and `CallLaws` say it
on the tokens and on the sections of the clusters; `Ranges` and `Evaluator` evaluate a heap
tree over hash sets that are changed and destroyed in place. `Evaluate`, `FromFunction`,
`RangefuncCluster` and the other functions of yamlfile.c, `ExpandCluster` and `DoRangeExpand` call
each other as in the source, and end because every section they reach refers to sections of lower
rank. `ClusterSemantics` shows that such section equations have exactly one solution, and that
expansion ends exactly where such ranks exist. `Results` prints
the range a request holds, and `EndToEnd` joins printing and expanding over hash sets and trees.
The parser, the functions of other modules, and the matches of user regular expressions are
arbitrary functions of a request.

**Cluster files and indexes.** `Dollars`, `ClusterKeys`, `KeysExpand` and `SectionTexts` prepare the
texts of a cluster file and say what they expand to; `ClusterCache` looks them up through a cache
checked by modification time (`FreshText` there is the `text` function of a request);
`ClusterIndex` and `IndexLookup` invert clusters and read the index; `Netblock` finds the longest
netblock of an address; `HostIndex` builds the host indexes.

Every set fits the table sizes that a C int can hold, at most `BIG` buckets: `Fits` in `Evaluator`
says so of each set an evaluation builds, and `InInt` bounds the numbers of expanded ranges.

## Model

| member | source | states |
|---|---|---|
| Pcre.StarStops | source/src/range.h:13-27 | where a lazy or greedy repetition of a pattern ends: the first place, counting up or down, from which the rest matches |
| Pcre.CharClasses | source/src/range.h:13-27 | the characters of the classes: letters, digits, and hyphen, dot and underscore where the class has them |
| NodeParts.NodeToPartsIsShortestSplit | source/src/range_parts.c:15-36 | the regular expression splits a name, less a final newline, at its shortest possible prefix, and leaves number and domain empty exactly when no split exists |
| NodeParts.ShortestSplitUnique | source/src/range_parts.h:23 | any shortest split of a name is the one the expression finds |
| NodeParts.PartsOfHost | source/src/range_parts.h:23 | a name of letters, a number, and nothing or a domain with a letter or hyphen in it has these as its prefix, number and domain |
| NodeParts.PartsOfAddress | source/src/range_parts.h:23 | an address, which has no letter, is split before its last number |
| NodeRange.RangeTextReadsBack | source/src/range.c:322-346 | split uniqueness: reading prefix, number, `..`, suffix and domain of a `..`-free name gives back exactly these pieces; no shorter prefix matches, group 3 stays unset, the repeated prefix consumes nothing |
| NodeRange.RangeOfHosts | source/src/range.c:322-346 | a range of such host names is read into the prefix, the two numbers and the domain it is made of |
| NodeRange.RepeatedPrefixReadsBack | README.md:21 | a prefix repeated after the dots changes nothing (node1..node4 is node1..4) |
| NodeReMatch.NodeReIsRangeSplit | source/src/range.h:13-27 | when NODE_RE matches, and what is read: exactly the texts made of a prefix, a number, perhaps a domain, `..`, perhaps the prefix again, a number, and the same domain again or, if there was none, perhaps a domain; the prefix is the shortest such a reading can have |
| NodeReMatch.RepeatedDomainReadsBack | README.md:24 | a domain repeated after the last number, with or without the prefix, changes nothing (foo1.domain.com..foo2.domain.com is foo1..2.domain.com) |
| NodeRange.NoDotsNoRange | source/src/range_scanner.l:113-123 | a name without `..` is never read as a range |
| RangeExpand.IgnoreCommonPrefix | source/src/range_compress.c:25-36 | the scanning loop returns the digits of the second number after those it shares with the first |
| RangeExpand.SuffixRebuilds | source/src/range_compress.c:25-36 | the suffix is not empty, has at most W digits, and replaces the last digits of the W-digit first number by those of the second |
| RangeExpand.SuffixIsShortest | source/src/range_compress.c:25-36 | the suffix begins at the first digit that differs, or is the whole second number if that is longer |
| RangeExpand.ExpansionNames | source/src/range.c:359-398 | a range whose last number is as long as the first or longer stands for every number from first to last, with at least as many digits as the first and no zeros beyond these |
| RangeExpand.SuffixExpands | source/src/range.c:359-398 | expanding the zero-padded first number with the suffix gives exactly the W-digit names from first to last, in order; for numbers of the C int the loop counter stays in the int, so that the loop adds them, unless the last is INT_MAX and the first at most 1999999999 |
| RangeExpand.AutoPadding | README.md:22 | a last number that is shorter than the first borrows the first's leading digits: short and full form have the same expansion; the full form stays in the C int exactly when its first number does and its last is below INT_MAX, and then the short form does too |
| RangeExpand.PaddedPastInt | source/src/range.c:378-395 | the converse fails: node2147483600..47 stands for 48 names, while the loop over its full form node2147483600..2147483647 steps past INT_MAX and has no value |
| RangeExpand.ExpansionDistinct | source/src/range.c:378-395 | every expansion holds max(0, l - f + 1) names, all different, whatever the widths of its numbers; these are what the loop adds where it stays in the C int |
| RangeSort.CompareIsStrictTotalOrder | source/src/range_sort.c:15-31 | compare_parts is a strict total order on distinct names |
| RangeSort.SortedUnique | source/src/range_sort.c:33-54 | a set of names has one sorted sequence only |
| RangeSort.SortIsSorted | source/src/range_sort.c:33-54 | sorting gives the names in that order, none lost and none added |
| RangeSort.SortedByParts | source/src/range_sort.c:15-31 | the printed order: prefixes ascend; under one prefix the domains; under one domain the numbers; under one number the whole names |
| Text.StrCmpByBytes | source/src/range_sort.c:21-25 | strcmp compares byte by byte: the first difference decides, and a proper prefix comes first |
| RangeSort.SortCanonical | source/src/range_sort.c:33-54 | the sorted sequence does not depend on the order in which the members are presented |
| RangeCompress.FillGroups | source/src/range_compress.c:66-90 | the loop over count, prev and prev_num_str_len closes exactly the runs of the sorted names, and gives up at 65536 closed groups |
| RangeCompress.DoRangeCompress | source/src/range_compress.c:45-110 | the printed text is the comma-separated texts of the runs, an empty name left out; empty for no names and for too many groups |
| RangeCompress.RunIsWritten | source/src/range_compress.c:38-43 | one name is printed as it is; a numbered run with its first number as it stands and the digits of its last from the first one on that differs |
| RangeCompress.EmptyNameDropped | source/src/range_compress.c:74-84 | with an empty name in the set, the text is that of the other names |
| RangeCompress.RunsPartition | source/src/range_compress.c:66-94 | cutting sorted names into runs puts each into exactly one, in order |
| RangeCompress.GroupsHoldNames | source/src/range_compress.c:66-94 | every name but the empty one is in exactly one printed group, in order, and the empty one in none |
| RangeCompress.RunsCount | source/src/range_compress.c:69-72 | the names of a group count up by one under one prefix and domain |
| RangeGroups.CleanUnlessStale | source/src/range_compress.c:86-87 | the loop continues an unnumbered name exactly for sets of one family: an unnumbered name sorts after the last all-digit name of value zero, and the first all-digit name of value one has the same width |
| RangeGroups.NotStale | source/src/range_compress.c:86-87 | sets with only numbered names, or without an all-digit name of value zero, are not in the family |
| RangeGroups.GroupCount | source/src/range_compress.c:66-94 | outside the family, with no number twice, the number of groups printed is the number of non-empty names minus those whose successor is in the set |
| Scanner.ScanWord | source/src/range_scanner.l:113-128 | a host or range text followed by anything but a word character is one token, except the word q before an opening parenthesis |
| Scanner.ScanHost | source/src/range_scanner.l:113-128 | letters, digits, underscore, dot, colon, and after the first character hyphen, make one word |
| Scanner.ScanSymbol | source/src/range_scanner.l:130-144 | each operator character is a token of its own |
| Scanner.ScanBlank | source/src/range_scanner.l:23-24 | blanks are skipped, and a line end is a token |
| Scanner.ScanRegex | source/src/range_scanner.l:26-49 | a text between slashes is a regular expression token |
| Scanner.ScanQuoted | source/src/range_scanner.l:50-111 | a text in q(), single or double quotes is a quoted token |
| Scanner.DelimitedEscape | source/src/range_scanner.l:30-37 | a backslash takes the next character as it is, and stays in a regular expression unless a slash or backslash follows |
| Scanner.ScanCommas | source/src/range_scanner.l:113-132 | a comma-separated list of words scans to the words' tokens and commas |
| Grammar.NoAtomAfterParen | source/src/range_parser.y:48-189 | no derivable token string has a host or range directly after a closing parenthesis |
| ExpressionLaws.Atoms | source/src/range_parser.y:53-83 | a word is its own name, a quoted text too but shown in quotes; nothing is no name, and parentheses leave no trace |
| ExpressionLaws.RangeAtom | source/src/range_parser.y:73-79 | a range is its expansion |
| ExpressionLaws.SetOperators | source/src/range_parser.y:84-116 | X,Y holds the names of X or Y, X-Y those of X not in Y, X&Y those in both; the last two where Y is not a regular expression |
| ExpressionLaws.RegexFilters | source/src/ast.c:57-74 | on the right of - and & a regular expression sifts the unquoted names on the left |
| ExpressionLaws.AgainstEverything | source/src/ast.c:75-93 | elsewhere it sifts the names of %all:CLUSTER, and !X is those less the names of X |
| ExpressionLaws.Shorthands | source/src/range_parser.y:117-163 | %X, ^X, @X, *X and ?X call cluster, get_admin, group, get_cluster and get_groups on X |
| ExpressionLaws.Calls | source/src/range_parser.y:164-189 | a call applies the named function to the values of its arguments in the order they are written; a hash sign changes nothing |
| ExpressionLaws.Braces | source/src/range_parser.y:92-100 | X{Y}Z holds each name of X, of Y and of Z joined in this order; an empty X or Z adds nothing |
| ExpressionLaws.ShownInQuotes | source/src/ast.c:40-105 | what is shown in quotes: a union as its larger operand, the right one between equals; a difference as its left one; an intersection and braces if any operand is |
| TokenLists.ListMeansUnion | source/src/range_parser.y:84-91 | every derivation of a comma-separated list means the union of its items, however it associates, and C gives it a value exactly when no item steps the loop counter past INT_MAX |
| ParenLists.YieldBalanced | source/src/range_parser.y:48-189 | parentheses are balanced in every derivable token string |
| ParenLists.ItemsUnion | source/src/range_parser.y:80-91 | every derivation of a list of items in parentheses, with commas between, holds one derivation of each item and means the union of these; C gives it a value exactly when it gives each one |
| ParenLists.ItemsDerive | source/src/range_parser.y:80-91 | and one derivation of each item makes one of the list |
| PrintedRuns.RunToken | source/src/range_compress.c:38-43 | the text of a run is one token, which expands to the names of the run |
| PrintedRuns.RunInInt | source/src/range.c:390-395 | expanding the text of a run keeps the loop counter within the C int, except exactly when the run ends at INT_MAX and begins at 1999999999 or below, so that INT_MAX is printed in full |
| RoundTrip.NullIsSyntaxError | source/src/range_compress.c:38-43 | a group formatted from a name without a number prints a null pointer, and no derivation yields that text |
| RoundTrip.RoundTrip | source/src/range.c:55-85 | for every set of valid names, scanning, parsing and evaluating the printed text gives the empty set if the set is of the stale-width family or needs more than 65536 groups; else no value at all if a run overflows the loop counter; else the set |
| RoundTrip.RoundTripExact | source/src/range_compress.c:45-110 | the set comes back if and only if it is outside the family above, has at most 65536 groups, and has no run that ends at INT_MAX and begins at 1999999999 or below |
| RoundTrip.CompressExpandCompress | source/src/range_compress.c:45-110 | printing, expanding and printing again gives the same text |
| RoundTrip.PrintedRangesStayInInt | source/src/range.c:390-395 | no run overflows in a set of at most 147483648 names |
| RoundTrip.OverflowExample | source/src/range.c:390-395 | the names foo1999999999 to foo2147483647, one more than that, and any longer such run, print to a text that expands to no value |
| RoundTrip.StaleExample | source/src/range_compress.c:86-87 | the set {0, foo, 1} prints to a text that expands to nothing |
| HashSets.NextPrime | source/src/set.c:25-31 | the smallest size in the prime list that is at least n |
| HashSets.Located | source/src/set.c:200-200 | a name can be only in the chain of its hash slot, at most once, and is there exactly when the map has it |
| HashSets.PushSound | source/src/set.c:237-242 | a new name's node in front of its slot's chain keeps slots, distinctness and count |
| HashSets.AllMoved | source/src/set.c:202-224 | once every node has been relinked, the larger table stands for the same map with the same nodes |
| HashSets.MoveNode | source/src/set.c:212-217 | relinking one node keeps the old chains' rest and the new table well linked, and returns the next node of the old chain |
| HashSets.RelinkBucket | source/src/set.c:210-219 | the inner loop moves each node of one old bucket once |
| HashSets.Node.constructor | source/src/set.c:70-79 | a new element with its name and data, linked in front of a chain |
| HashSets.HashSet.constructor | source/src/set.c:45-63 | an empty, well linked table whose size is the next in the prime list, for sizes up to 1610612741, the largest table an int counts |
| HashSets.HashSet.Destroy | source/src/set.c:65-68 | a destroyed set is not valid any more; nothing else changes |
| HashSets.HashSet.Get | source/src/set.c:251-262 | the node with the name, or null exactly when the map lacks it |
| HashSets.HashSet.GetData | source/src/set.c:263-269 | the map's data, or null |
| HashSets.HashSet.AddNoResize | source/src/set.c:226-243 | the map gains or changes the one name; size kept; at most one member more, never more members than buckets |
| HashSets.HashSet.Add | source/src/set.c:245-249 | the map gains or changes the one name; the table has the old size or the next prime size for one member more; below 1610612741 members |
| HashSets.HashSet.Resize | source/src/set.c:202-224 | same map and members; grows exactly when the hint exceeds the size, and then to the next prime; for hints up to 1610612741 |
| HashSets.HashSet.Relink | source/src/set.c:207-222 | in-place relinking into a new table of at most 1610612741 buckets keeps the map |
| HashSets.HashSet.Members | source/src/set.c:271-286 | every node once, in bucket order, and a terminating null |
| SetAlgebra.CountMembers | source/src/set.c:33-43 | walking all chains finds as many nodes as members says, which is what the assertion after an in-place union checks |
| SetAlgebra.AddAll | source/src/set.c:316-318 | adding without resizing, bucket by bucket, adds exactly the other map, given room for both |
| SetAlgebra.Union | source/src/set.c:288-308 | a new set with the union of the maps, the second's data winning; for up to 1610612741 members together |
| SetAlgebra.UnionInplace | source/src/set.c:310-324 | the same union in place, also of a set with itself; for up to 1610612741 members together |
| SetAlgebra.Diff | source/src/set.c:326-343 | a new set of the same table size with the first map less the second's names |
| SetAlgebra.Intersect | source/src/set.c:370-391 | the names both have, in either argument order; the data of the smaller set, of the second when equally large |
| SetAlgebra.NextPrimeIdentity | source/src/set.c:332-335 | next_prime is the identity on table sizes, so the loop of set_diff stays within the first set's table |
| SetRemove.Unlink | source/src/set.c:354-359 | redirecting one link takes exactly that node out; the node's own link stays usable |
| SetRemove.CutSound | source/src/set.c:354-359 | a chain without one of its nodes is still indexed, linked and counted correctly |
| SetRemove.Remove | source/src/set.c:393-411 | the map loses the name, and nothing else changes |
| SetRemove.PruneBucket | source/src/set.c:350-362 | walking a bucket while unlinking visits each of its nodes once |
| SetRemove.DiffInplace | source/src/set.c:345-368 | the same difference as set_diff, in place; a set less itself becomes empty |
| SetRuns.Run | source/src/set.c:202-411 | over every sequence of additions, removals, lookups, in-place unions and differences, and intersections on two sets, each with the other or with itself, both tables stay well linked, hold their maps, and answer from them |
| SetPack.DecodePacked | source/src/set.c:444-546 | packed entries have exactly the computed size and decode to themselves, null apart from the empty string, the reader stopping at the very end; only the empty set does not decode |
| SetPack.PackedBytes | source/src/set.c:469-503 | the bytes: the total length, then of each element its name and its data, each as length, characters and null; -1 for null data |
| SetPack.LittleEndian | source/src/set.c:478 | an int is written as four bytes, the lowest first as on a little-endian machine, negative ones in two's complement |
| SetPack.PackSize | source/src/set.c:444-460 | the size loop computes the length of the packed form, if a C int holds it |
| SetPack.Pack | source/src/set.c:469-503 | packing writes a buffer of exactly the computed size with the entries of the map, each once |
| SetPack.Unpack | source/src/set.c:516-546 | unpacking gives the map the bytes decode to, and where it stops reading; it runs out of bytes exactly when they do not decode |
| SetPack.PackUnpack | source/src/set.c:469-546 | packing any non-empty set of C strings and unpacking the bytes gives an equal set, and the reader stops exactly at the end of the buffer; the packed empty set does not unpack |
| AstHeap.AstNode.constructor | source/src/ast.c:12-20 | a new node without child and sibling |
| AstHeap.Link | source/src/range_parser.y:84-107 | a node's sibling is set only where it is still null, hence at most once |
| AstHeap.Build | source/src/range_parser.y:48-189 | the actions of every derivation leave a heap of fresh nodes that decodes to its expression, with as many nodes as the expression, none shared |
| AstHeap.BuildArgs | source/src/range_parser.y:181-189 | n arguments become a sibling list of n nodes |
| AstHeap.OneOperand | source/src/ast.c:52-56 | a node with one operand has exactly one child |
| AstHeap.TwoOperands | source/src/ast.c:40-42 | a union, difference or intersection node has exactly two children |
| AstHeap.ThreeOperands | source/src/ast.c:97-100 | a braces node has exactly three children |
| AstHeap.DecodesOnce | source/src/ast.h:28-42 | a heap tree decodes to one expression only |
| Semantics.EvalIsDenotes | source/src/ast.c:22-132 | over unquoted ranges the evaluator's value is the set that union, difference, intersection, complement, filter and product denote, whichever operand of a union is larger |
| Semantics.BracesHold | source/src/range.c:197-247 | an empty operand of braces drops out: the product of the other two, or the other one, or the empty name alone; with none empty exactly the triples |
| ExpressionLaws.SeenInQuotes | source/src/range.c:100-118 | functions and regular expressions see the names of a quoted range in quotes |
| Semantics.QuotedFilterMisses | source/src/range.c:100-118 | filtering a quoted range by a regular expression keeps none of its own names, unless one is spelled with quotes |
| Ranges.RangeNew | source/src/range.c:133-140 | a new, empty, unquoted range |
| Ranges.RangeAdd | source/src/range.c:87-92 | the range gains the name |
| Ranges.Request.constructor | source/src/range_request.c:27-39 | a new request holds no range |
| Ranges.RangeDestroy | source/src/range.c:32-35 | the set of the range is destroyed, and nothing else changes |
| Ranges.FromLiteral | source/src/range.c:180-186 | a new unquoted range of the one name |
| Ranges.FromNonRangeLiteral | source/src/range.c:188-195 | a new quoted range of the one name |
| Ranges.NamesOf | source/src/set.c:271-286 | the names of the listed members are the names of the set, each once |
| Ranges.GetHostnames | source/src/range.c:100-118 | the names, in quotes when the range is quoted, each once |
| Ranges.FromMatch | source/src/range.c:147-178 | a new range of the host names that match |
| Ranges.FromRangeparts | source/src/range.c:359-398 | a new range of the names of the expansion; the loop counter stays in the C int |
| Ranges.FromBraces | source/src/range.c:197-247 | a new range of all concatenations, an empty operand counting as the empty string |
| Ranges.UnionOfBoth | source/src/ast.c:40-51 | the union, in the first operand if it has more members, else in the second, the other destroyed; the result takes the kept operand's quoting |
| Ranges.UnionInplace | source/src/range.c:260-264 | the destination gains the source's names, and the source is untouched |
| Ranges.InterOfBoth | source/src/range.c:266-275 | a new range of the common names, both operands destroyed |
| Ranges.DiffInplace | source/src/range.c:277-281 | the left range loses the right one's names |
| Ranges.DestroyAll | source/src/ast.c:120-122 | each argument is destroyed once |
| Evaluator.ValidateRangeArgs | source/src/range.c:447-464 | true exactly for the expected number of arguments, or for one where none is expected |
| Evaluator.Evaluate | source/src/ast.c:22-132 | evaluating a heap tree returns a fresh range with the value of the decoded expression, changes no range that existed before, and terminates |
| Evaluator.EvaluateUnion | source/src/ast.c:40-51 | a union node's value |
| Evaluator.EvaluateDiff | source/src/ast.c:57-64 | a difference node's value, the right operand a filter when it is a regular expression |
| Evaluator.EvaluateInter | source/src/ast.c:65-74 | an intersection node's value, likewise |
| Evaluator.EvaluateNot | source/src/ast.c:75-84 | everything in cluster all:CLUSTER less the operand |
| Evaluator.EvaluateRegex | source/src/ast.c:85-93 | the matching names of cluster all:CLUSTER |
| Evaluator.EvaluateBraces | source/src/ast.c:97-105 | a braces node's value |
| Evaluator.EvaluateGroup | source/src/ast.c:52-56 | a group node's value |
| Evaluator.CountChildren | source/src/ast.c:107-109 | the first loop counts the arguments |
| Evaluator.EvaluateArguments | source/src/ast.c:111-117 | the arguments' values, in order, in a null-terminated array of ranges that share nothing |
| Evaluator.EvaluateFunction | source/src/ast.c:106-124 | a function node's value, every argument destroyed afterwards |
| Evaluator.FromFunction | source/src/range.c:414-443 | a call returns a fresh range with the function's value on its arguments' values, the sections having their values |
| Evaluator.RangefuncCluster | source/functions/yamlfile.c:470-513 | the union of the sections that the names refer to, and the empty range for a wrong number of arguments |
| CallLaws.ClusterOfName | source/functions/yamlfile.c:481-500 | of a name without colon, cluster gives its CLUSTER section; of c:s the section s of c |
| CallLaws.ClusterOfNames | source/functions/yamlfile.c:481-511 | of several names it gives what each of them gives |
| Evaluator.UnionOfSections | source/functions/yamlfile.c:481-511 | the union loop: swapping by size does not affect the set |
| Evaluator.RangefuncGroup | source/functions/yamlfile.c:604-615 | the union of the named sections of GROUPS |
| CallLaws.GroupOfNames | source/functions/yamlfile.c:604-615 | group gives the section of GROUPS of that name, and of several names what each gives |
| Evaluator.GetClusters | source/functions/yamlfile.c:515-546 | each name in a CLUSTER section is indexed with exactly the clusters that hold it, in order |
| Evaluator.RangefuncClusters | source/functions/yamlfile.c:575-602 | exactly the clusters whose CLUSTER section meets the given names |
| CallLaws.ClustersOfNames | source/functions/yamlfile.c:575-602 | clusters holds c if and only if c is a cluster whose CLUSTER section holds a given name |
| Evaluator.RangefuncGetCluster | source/functions/yamlfile.c:548-573 | for each given name that is in some cluster, the first cluster that holds it |
| CallLaws.FirstClusterOfNames | source/functions/yamlfile.c:548-573 | get_cluster holds c if and only if the CLUSTER section of c holds a given name that that of no earlier cluster holds |
| Evaluator.RangefuncGetGroups | source/functions/yamlfile.c:617-662 | exactly the sections of GROUPS that meet the given names |
| CallLaws.GroupsOfNames | source/functions/yamlfile.c:617-662 | get_groups holds g if and only if KEYS of GROUPS lists g and the section g holds a given name |
| Evaluator.RangefuncMem | source/functions/yamlfile.c:437-468 | exactly the sections of the cluster that hold a wanted name |
| CallLaws.SectionsOfNames | source/functions/yamlfile.c:437-468 | mem on c holds s if and only if KEYS of c lists s and the section s of c holds a given name |
| Evaluator.SectionsWith | source/functions/yamlfile.c:453-465 | the goto loop goes on to the next section once one wanted name is found, and misses none |
| Evaluator.RangefuncHas | source/functions/yamlfile.c:402-434 | exactly the clusters whose section of that name holds the value |
| CallLaws.ClustersWithValue | source/functions/yamlfile.c:402-434 | has on s and x holds c if and only if c is a cluster whose section s holds x |
| CallLaws.OtherCalls | source/functions/yamlfile.c:382-400 | allclusters lists the clusters; the wrong number of arguments gives the empty range |
| CallLaws.QuotedArgument | source/src/range.c:100-118 | a quoted argument counts as its names in quotes |
| Evaluator.ExpandCluster | source/functions/yamlfile.c:271-326 | a fresh range with the section's value; expansion ends because each text refers to sections of lower rank |
| CallLaws.ValueOfText | source/functions/yamlfile.c:312-326 | a section has the value its text evaluates to, and none without a text or with one that does not parse |
| Evaluator.DoRangeExpand | source/src/range.c:55-85 | a fresh range with the text's value, empty for a null text or syntax error; after any nesting the request holds the range returned last, the outermost |
| Evaluator.StratifiedIsReady | source/functions/yamlfile.c:271-326 | a system that is stratified up to a rank, and whose sections fit up to there, satisfies what the evaluator asks of a request |
| Evaluator.RangeExpand | source/src/libcrange.c:205-215 | a new request ends up holding the value of the text, the sections it can reach meaning the unique solution of their equations; what other sections refer to does not matter |
| ClusterSemantics.CallsAgree | source/functions/yamlfile.c:437-662 | a cluster function that reads only sections below a rank gives the same wherever the values below that rank are the same |
| ClusterSemantics.EvalAgrees | source/src/ast.c:22-132 | an evaluation that reads only sections below a rank does the same wherever the values below that rank are the same |
| ClusterSemantics.DeepExpansion | source/functions/yamlfile.c:271-326 | expanding deeper than a section's rank gives its value, whatever lies at the bottom |
| ClusterSemantics.UniqueSolution | source/functions/yamlfile.c:271-326 | up to the rank a system is stratified to, that value solves the section equations |
| ClusterSemantics.AnySolutionIsTheSolution | source/functions/yamlfile.c:271-326 | every solution of these equations is that value |
| ClusterSemantics.NamedReferencesStratify | source/functions/yamlfile.c:470-513 | a system is stratified up to a rank when each text up to there names what it refers to, all of it of lower rank, for mem and get_groups every section that might be listed |
| ClusterSemantics.SplitJoined | source/functions/yamlfile.c:482-500 | a name splits at its first colon |
| ClusterSemantics.EndedStays | source/functions/yamlfile.c:271-326 | an expansion that ends within a nesting depth has the same value at every greater depth, whatever lies at the bottom |
| ClusterSemantics.EndsExactly | source/functions/yamlfile.c:271-326 | expanding a section ends if and only if some rank stratifies the system up to the section |
| ClusterSemantics.AllEndExactly | source/functions/yamlfile.c:271-326 | expansion ends for every section if and only if some rank stratifies the whole system |
| ClusterSemantics.TextEndsExactly | source/src/range.c:55-85 | expanding a text ends if and only if some rank stratifies the system as far as the text reads |
| ClusterSemantics.SelfReferenceNeverEnds | source/functions/yamlfile.c:271-326 | expanding a section that refers to itself does not end |
| ClusterSemantics.SelfReference | source/functions/yamlfile.c:271-326 | without ranks the equations may leave the value open: a section that refers to itself may have any |
| Results.CanonicalText | source/src/range_compress.c:63-63 | the printed text depends on the set of names alone |
| Results.RequestCompressed | source/src/range_request.c:55-60 | whatever insertion history, buckets and table size a range has, it prints as any list of its names does |
| EndToEnd.ListFits | source/src/range.c:390-395 | every derivation of a list whose ranges stay within the C int, and whose items add fewer names than the largest table holds, can be evaluated, and reads no section |
| EndToEnd.PrintThenExpand | source/src/range_request.c:55-60 | end to end over hash sets and trees: expanding the text printed for a range leaves the request with a range of the same names, or of none for the stale-width family and for too many groups |
| Dollars.SubstituteDollars | source/functions/yamlfile.c:100-135 | the buffer-writing loops compute the substituted line |
| Dollars.PieceByPiece | source/functions/yamlfile.c:111-132 | substitution works piece by piece, the second piece starting inside or outside slashes as the first ends |
| Dollars.ReferenceRewritten | source/functions/yamlfile.c:112-124 | a $NAME at even slash parity becomes a cluster call, wherever it stands |
| Dollars.QuotedDollarKept | source/functions/yamlfile.c:125-131 | a dollar at odd slash parity stays |
| Dollars.NothingLive | source/functions/yamlfile.c:111-132 | a line without a dollar at even slash parity is unchanged |
| Dollars.Growth | source/functions/yamlfile.c:112-124 | a line grows by the length of the cluster name and 9 for each dollar at even slash parity, and by nothing else |
| Dollars.IdempotentExactly | source/functions/yamlfile.c:100-135 | substituting twice is substituting once, on every line, if and only if the cluster name has evenly many slashes and no dollar at even slash parity |
| Dollars.PlainNamesAreInert | source/functions/yamlfile.c:100-135 | in particular for every cluster name without dollar and slash |
| ClusterKeys.JoinElements | source/functions/yamlfile.c:137-164 | the joined names and a terminating null fill the computed size exactly; a null pointer for no name |
| ClusterKeys.SplitsBackExactly | source/functions/yamlfile.c:137-164 | the joined text splits back into the names if and only if no name contains the separator |
| ClusterKeys.GlueItems | source/functions/yamlfile.c:235-260 | list items are substituted, put in parentheses and joined by commas; an item that is not a scalar is an error |
| SectionTexts.ListMeansItems | source/functions/yamlfile.c:235-260 | however the text of a list section is parsed, it means the union of what its items mean, for items that close their quotes and parentheses |
| SectionTexts.ListDerivation | source/functions/yamlfile.c:235-260 | it has a derivation as soon as its items have |
| SectionTexts.HostListExpands | source/functions/yamlfile.c:257-259 | a list of plain host names expands to exactly these names |
| SectionTexts.ScalarText | source/functions/yamlfile.c:232-234 | a scalar without a dollar at even slash parity is its own text |
| ClusterKeys.LoadSections | source/functions/yamlfile.c:221-261 | the loop over the pairs builds the map of section texts, later pairs replacing earlier ones |
| ClusterKeys.LastPairDecides | source/functions/yamlfile.c:221-261 | the last scalar or list of a name is its section |
| ClusterKeys.NoOtherSection | source/functions/yamlfile.c:221-261 | a name without scalar or list has no section |
| ClusterKeys.ClusterKeys | source/functions/yamlfile.c:167-269 | the sections of a document with KEYS listing their names; nothing at all for a malformed document |
| ClusterKeys.AddKeys | source/functions/yamlfile.c:263-265 | KEYS is added last, over any section of that name, and lists all names there were |
| KeysExpand.KeysExpandToNames | source/functions/yamlfile.c:263-265 | the KEYS text parses and expands to exactly the section names, when these are plain host names |
| ClusterCache.PathInjective | source/functions/yamlfile.c:284-284 | different clusters have different files |
| ClusterCache.Libcrange.Lookup | source/functions/yamlfile.c:277-323 | a lookup answers from the cached file if it is as old as the one on disk, else from that on disk, and keeps the file it answered from |
| ClusterCache.LookupAnswers | source/functions/yamlfile.c:284-323 | a lookup answers the text that the file's sections give the section, CLUSTER included; without one the empty text for CLUSTER and nothing else; nothing without a file |
| ClusterCache.UncachedIsFresh | source/src/libcrange.c:173-178 | a handle that wants no cache reads every file anew |
| ClusterCache.ClearedIsFresh | source/src/libcrange.c:167-171 | so does the first lookup after the caches are cleared |
| ClusterCache.Libcrange.Serve | source/src/libcrange.c:156-178 | over every run of file changes, caching switches, cache clearings and lookups the handle gives exactly the answers of the cache model; these are the answers of reading anew if modification times determine the section texts |
| ClusterCache.TransparentExactly | source/functions/yamlfile.c:284-312 | the cache shows in no run if and only if any two files that may stand at a cluster's path with one modification time have the same section texts |
| ClusterCache.StaleAnswer | source/functions/yamlfile.c:304-309 | two files with one modification time: the second lookup answers from the first file |
| ClusterIndex.AddCluster | source/functions/yamlfile.c:530-541 | the inner loop appends the cluster to the list of each of its nodes |
| IndexLookup.CollectAll | source/functions/yamlfile.c:586-600 | the nodes' lists in the index name exactly the clusters that meet the nodes |
| IndexLookup.CollectFirst | source/functions/yamlfile.c:559-571 | the heads of the nodes' lists name the nodes' first holders |
| ClusterIndex.FirstIsFirst | source/functions/yamlfile.c:563-567 | that cluster holds the node, and no cluster before it in the list does |
| Netblock.KeyInjective | source/functions/netblock.c:148-153 | different base and prefix length give different keys |
| Netblock.KeyExample | source/functions/netblock.c:148-153 | keys are the hexadecimal base, a slash and the decimal prefix length, as in a01ff00/24 |
| Netblock.ReadNetblocks | source/functions/netblock.c:103-118 | the table holds the last record of each block, and each datacenter lists the blocks of all its records |
| Netblock.TableHolds | source/functions/netblock.c:107-108 | a key finds the last record of its block, and nothing only if the block has none |
| Netblock.MaskDecides | source/functions/netblock.c:11-11 | an address masked to a prefix length equals a block's base exactly when the block is proper and contains the address |
| Netblock.Sizes | source/functions/netblock.c:11-11 | block sizes double from one address at 32 bits to all of them at none |
| Netblock.ProbeFindsLongest | source/functions/netblock.c:126-146 | probing downwards finds the longest proper block that contains the address; blocks with host bits set, or of length 0 or over 32, are never found |
| Netblock.NetcoloForIp | source/functions/netblock.c:126-146 | longest-prefix lookup by 32 probes (CIDR prefixes, section 3.1 of RFC 4632) |
| HostIndex.DomainDropped | source/functions/hosts-netblocks.c:41-56 | a host under the default domain is indexed by its bare name, with or without a final dot |
| HostIndex.OtherNamesKept | source/functions/hosts-netblocks.c:41-56 | any other name of at most 511 characters is indexed as it is, less a final dot |
| HostIndex.LongNamesCut | source/functions/hosts-netblocks.c:41-42 | of a longer name only the first 511 characters count |
| HostIndex.InitCaches | source/functions/hosts-netblocks.c:13-86 | the loop over all hosts builds the four indexes: the last host under a name decides, blocks and datacenters list exactly their hosts |
| HostIndex.HostFound | source/functions/hosts-netblocks.c:58-80 | a host in a netblock is found by its short name and by its address, unless a later one is indexed so too, and listed by its block and datacenter |
| HostIndex.IndexesAgreeExactly | source/functions/hosts-netblocks.c:58-80 | what is indexed under a name or address is listed by the netblock and the datacenter it is indexed with, except exactly when the last host indexed so is indexed by its address, and no host of that name lies in its block or none in its datacenter |
| HostIndex.IndexesAgree | source/functions/hosts-netblocks.c:58-80 | in particular for every host, if no host name is spelled like another host's address |
| HostIndex.ListedHostsHaveRecords | source/functions/hosts-netblocks.c:64-80 | every listed host comes from a record whose address lies in that netblock, or in a block of that datacenter |
| HostIndex.SpelledLikeAnAddress | source/functions/hosts-netblocks.c:59-62 | an address spelled like a host name, with no later host under that spelling and no host of that name in its datacenter, is found in a datacenter that does not list it |

## Left out

- RangeCompress.DoRangeCompress: does not model numbers beyond the C int, for which atoi is undefined, nor the int that sums up the result's size; the sum it compares a number with is unbounded, as no number equals it past INT_MAX.
- Pcre.StarStops: the matcher has no limit; pcre_exec gives up after a fixed number of steps, which the source takes for no match, and backtracking over a domain of thousands of letters can reach that.
- Evaluator.Evaluate: regular expressions of users are an arbitrary predicate, and a pattern that does not compile matches nothing.
- Evaluator.FromFunction: Perl, Python and dynamically loaded functions are one arbitrary function from values to a value that returns an unshared set; sets passed on by nodescf.c break this, and nodescf.c is not part of this model.
- Evaluator.Evaluate: asks (`Fits`) that each set, and both operands of a union together, stay below 1610612741 names, the largest table an int loop counter can walk; the unions inside cluster and group ask that their results stay below half of that.
- Evaluator.FromFunction: mem and has take the first name of an argument; with no or several names there, which is first is up to the hash function, and the call is left to the arbitrary functions.
- Evaluator.ExpandCluster: the natural-order comparison of a section's name with CLUSTER is an arbitrary predicate, because its branches return the same empty range; apr_strnatcmp is not part of this model.
- Evaluator.RangefuncGroup: a call of group without arguments, which no derivation makes, is left to the other plugins.
- SetPack.Unpack: the source reads past the end where the bytes do not decode; here that ends the loop with ok false.
- SetPack.Pack: reads the elements through the list of members, in the same bucket order.
- ClusterKeys.ClusterKeys: opening, reading and parsing the file are left out; the document is given as scalars and lists.
- ClusterCache.Libcrange.Lookup: the file does not change between asking for its time and reading it.
- Evaluator.GetClusters: the list of clusters that _all_clusters reads from the directory is given; the table is a map, not a hash set.
- Netblock.NetcoloForIp: IMASK is modelled as rounding down to a multiple of the block size, not as an operation on bits.
- Netblock.ReadNetblocks: reading lines, the two-field and address patterns, and the error returns are left out; the records are given.
- HostIndex.InitCaches: the list of hosts is given, and the tables are maps of names to sets, not hash sets.
- Static and fixed buffers (262144 bytes in _substitute_dollars, 32768 in the scanner, 32 for netblock keys) are unbounded, except the 512 bytes for a host name.
- Sorting is insertion into a sorted sequence; that the order is total makes qsort's algorithm immaterial.
- README.md documents ranges written with `-` (foo1-2.domain.com); the pattern in range.h accepts only `..`, and the model follows the pattern.
- Memory pools: a destroyed set is marked so, and each set owns its nodes; a range is a value holding its set and its quoting.
- Warnings, debug dumps, DNS and file access, and the database modules are left out.
- HashSets.HashSet.Resize: tables of more than 1610612741 buckets are left out, here and in all set operations, because the int loop counters of the source overflow on them.
- SetRuns.Run: adding without resizing is asked for only where a bucket is left for each element.
- copy_range, range_remove, range_from_hostnames, range_from_union and range_from_diff are left out, as they add only a call to a set operation that is modelled.
